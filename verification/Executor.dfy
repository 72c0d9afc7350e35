/**
  The executor as a transition system.  One main thread drains the wake queue into a batch, takes
  each task of the batch out of its map of tasks and has it polled, on an idle CPU if there is one and
  otherwise by itself; a pending task goes back into the map.  Wakes arrive at any step.
 */
module Executor {
  import opened Options

  type TaskId = nat

  const QUEUE_CAPACITY: nat := 1024

  /** A CPU, or the main thread polling a task itself: what it is doing with a task. */
  datatype Worker =
    | Idle
    | Queued(id: TaskId)     // dispatched, poll not begun
    | Polling(id: TaskId)
    | Storing(id: TaskId)    // poll returned Pending, task not yet back in the map
    | Finishing              // task stored or dropped, busy flag still set
  {
    predicate Has(task: TaskId) { (Queued? || Polling? || Storing?) && id == task }
  }

  /** The position of the main thread in `run`. */
  datatype Phase =
    | Spawning
    | Top
    | Draining(batch: set<TaskId>)
    | Batch(todo: set<TaskId>)
    | Scanning(todo: set<TaskId>, id: TaskId, cpu: nat)   // looking for an idle CPU
    | Inline(todo: set<TaskId>)
    | Waiting(cpu: nat)
    | Done
    | Panicked

  /** `workers` has one entry per CPU and, last, one for the main thread.  `completed`, `woken` and
      `polled` are history: tasks that returned Ready, tasks woken since their last poll began, and
      tasks whose poll began in the current batch. */
  datatype State = State(
    phase: Phase, nextId: nat, tasks: set<TaskId>, queue: seq<TaskId>, workers: seq<Worker>,
    completed: set<TaskId>, woken: set<TaskId>, polled: set<TaskId>)

  datatype Action =
    | Spawn
    | StartRun
    | CheckTasks(cpus: nat)          // loop top, with the CPUs known at that time
    | PopWake
    | Take(id: TaskId)
    | Scan
    | Begin(worker: nat)
    | Return(worker: nat, ready: bool)
    | Store(worker: nat)
    | Finish(worker: nat)
    | EndInline
    | EndBatch
    | Wait
    | Wake(id: TaskId)

  const START: State := State(Spawning, 0, {}, [], [Idle], {}, {}, {})

  /** `push(..).expect(..)` */
  function PushWake(s: State, id: TaskId): State
  {
    if |s.queue| == QUEUE_CAPACITY then s.(phase := Panicked)
    else s.(queue := s.queue + [id], woken := s.woken + {id})
  }

  /** The worker steps belong to a CPU at any time and to the main thread while it polls inline. */
  predicate MayWork(s: State, w: nat)
  {
    w < |s.workers| && (w + 1 < |s.workers| || s.phase.Inline?)
  }

  /** The next state, if the action is enabled. */
  function Next(s: State, a: Action): Option<State>
  {
    if s.phase.Panicked? then None
    else
      match a
      case Spawn =>
        if s.phase.Spawning? then Some(PushWake(s.(nextId := s.nextId + 1, tasks := s.tasks + {s.nextId}), s.nextId)) else None
      case StartRun =>
        if s.phase.Spawning? then Some(s.(phase := Top)) else None
      case CheckTasks(cpus) =>
        if !s.phase.Top? then None
        else if s.tasks == {} then Some(s.(phase := Done))
        else Some(s.(phase := Draining({}), workers := seq(cpus + 1, _ => Idle), polled := {}))
      case PopWake =>
        if !s.phase.Draining? then None
        else if s.queue != [] then Some(s.(phase := Draining(s.phase.batch + {s.queue[0]}), queue := s.queue[1..]))
        else if s.phase.batch == {} then Some(s.(phase := Top))
        else Some(s.(phase := Batch(s.phase.batch)))
      case Take(id) =>
        if !(s.phase.Batch? && id in s.phase.todo) then None
        else if id in s.tasks then Some(s.(phase := Scanning(s.phase.todo - {id}, id, 0), tasks := s.tasks - {id}))
        else Some(s.(phase := Batch(s.phase.todo - {id})))
      case Scan =>
        if !(s.phase.Scanning? && s.phase.cpu < |s.workers|) then None
        else if s.phase.cpu + 1 == |s.workers| then
          Some(s.(phase := Inline(s.phase.todo), workers := s.workers[s.phase.cpu := Queued(s.phase.id)]))
        else if !s.workers[s.phase.cpu].Idle? then Some(s.(phase := s.phase.(cpu := s.phase.cpu + 1)))
        else Some(s.(phase := Batch(s.phase.todo), workers := s.workers[s.phase.cpu := Queued(s.phase.id)]))
      case Begin(w) =>
        if !(MayWork(s, w) && s.workers[w].Queued?) then None
        else
          var id := s.workers[w].id;
          Some(s.(workers := s.workers[w := Polling(id)], woken := s.woken - {id}, polled := s.polled + {id}))
      case Return(w, ready) =>
        if !(MayWork(s, w) && s.workers[w].Polling?) then None
        else
          var id := s.workers[w].id;
          if ready then Some(s.(workers := s.workers[w := Finishing], completed := s.completed + {id}))
          else Some(s.(workers := s.workers[w := Storing(id)]))
      case Store(w) =>
        if !(MayWork(s, w) && s.workers[w].Storing?) then None
        else Some(s.(workers := s.workers[w := Finishing], tasks := s.tasks + {s.workers[w].id}))
      case Finish(w) =>
        if !(MayWork(s, w) && s.workers[w].Finishing?) then None
        else Some(s.(workers := s.workers[w := Idle]))
      case EndInline =>
        if s.phase.Inline? && s.workers != [] && s.workers[|s.workers| - 1].Idle?
        then Some(s.(phase := Batch(s.phase.todo))) else None
      case EndBatch =>
        if s.phase.Batch? && s.phase.todo == {} then Some(s.(phase := Waiting(0))) else None
      case Wait =>
        if !(s.phase.Waiting? && s.phase.cpu < |s.workers|) then None
        else if s.phase.cpu + 1 == |s.workers| then Some(s.(phase := Top))
        else if s.workers[s.phase.cpu].Idle? then Some(s.(phase := Waiting(s.phase.cpu + 1)))
        else Some(s)
      case Wake(id) =>
        if id < s.nextId && !s.phase.Done? then Some(PushWake(s, id)) else None
  }

  // ---------------------------------------------------------------- invariant

  /** Ids that the main thread has popped and not yet taken. */
  function Popped(p: Phase): set<TaskId>
  {
    match p
    case Draining(batch) => batch
    case Batch(todo) => todo
    case Scanning(todo, _, _) => todo
    case Inline(todo) => todo
    case _ => {}
  }

  ghost predicate Somewhere(ws: seq<Worker>, id: TaskId)
  {
    exists w :: 0 <= w < |ws| && ws[w].Has(id)
  }

  ghost predicate QueuedAt(ws: seq<Worker>, id: TaskId)
  {
    exists w :: 0 <= w < |ws| && ws[w] == Queued(id)
  }

  /** Some worker has this id, or the main thread holds it while it looks for a CPU. */
  ghost predicate Held(s: State, id: TaskId)
  {
    (s.phase.Scanning? && s.phase.id == id) || Somewhere(s.workers, id)
  }

  /** Each spawned task is in the map, held, or completed, and in only one of these. */
  ghost predicate Placed(s: State)
  {
    && (forall id: TaskId :: id in s.tasks || id in s.completed || Held(s, id) ==> id < s.nextId)
    && (forall id: TaskId :: 0 <= id < s.nextId ==> id in s.tasks || id in s.completed || Held(s, id))
    && (forall id: TaskId :: !(id in s.tasks && id in s.completed))
    && (forall id: TaskId :: Held(s, id) ==> id !in s.tasks && id !in s.completed && id !in Popped(s.phase))
  }

  /** Exclusivity: a task is with one worker at most. */
  ghost predicate Exclusive(s: State)
  {
    && (forall v, w, id: TaskId :: 0 <= v < w < |s.workers| && s.workers[v].Has(id) ==> !s.workers[w].Has(id))
    && (s.phase.Scanning? ==> forall w :: 0 <= w < |s.workers| ==> !s.workers[w].Has(s.phase.id))
  }

  /** Which workers may be busy at which point of `run`. */
  ghost predicate Synchronised(s: State)
  {
    && |s.workers| > 0
    && (!s.phase.Inline? ==> s.workers[|s.workers| - 1].Idle?)
    && (s.phase.Spawning? || s.phase.Top? || s.phase.Draining? || s.phase.Done? ==>
          forall w :: 0 <= w < |s.workers| ==> s.workers[w].Idle?)
    && (s.phase.Waiting? ==>
          s.phase.cpu < |s.workers| && forall w :: 0 <= w < s.phase.cpu ==> s.workers[w].Idle?)
    && (s.phase.Scanning? ==> s.phase.cpu < |s.workers|)
  }

  /** This id is on its way to a poll that has not begun. */
  ghost predicate Due(s: State, id: TaskId)
  {
    || id in s.queue || id in Popped(s.phase)
    || (s.phase.Scanning? && s.phase.id == id)
    || QueuedAt(s.workers, id)
  }

  /** No wake is lost, and nothing in the queue or batch is unknown. */
  ghost predicate WakesKept(s: State)
  {
    && (forall id: TaskId :: id in s.woken && id !in s.completed ==> Due(s, id))
    && (forall id: TaskId :: id in s.queue || id in Popped(s.phase) ==> id < s.nextId)
  }

  /** A batch entry whose poll has not begun has not been polled in this batch. */
  ghost predicate PolledOnce(s: State)
  {
    && (s.phase.Batch? || s.phase.Scanning? || s.phase.Inline? ==>
          forall id: TaskId :: id in s.polled ==> id !in Popped(s.phase))
    && (s.phase.Scanning? ==> s.phase.id !in s.polled)
    && (forall w :: 0 <= w < |s.workers| && s.workers[w].Queued? ==> s.workers[w].id !in s.polled)
    && (s.phase.Draining? ==> s.polled == {})
  }

  ghost predicate Inv(s: State)
  {
    s.phase.Panicked? || (Placed(s) && Exclusive(s) && Synchronised(s) && WakesKept(s) && PolledOnce(s)
                          && (s.phase.Done? ==> s.tasks == {}))
  }

  // ---------------------------------------------------------------- every step keeps it

  /** Changing one worker changes where its own tasks are, and nothing else. */
  lemma WorkerUpdate(ws: seq<Worker>, w: nat, x: Worker)
    requires w < |ws|
    ensures forall id: TaskId :: Somewhere(ws[w := x], id) ==> x.Has(id) || Somewhere(ws, id)
    ensures forall id: TaskId :: Somewhere(ws, id) ==> ws[w].Has(id) || Somewhere(ws[w := x], id)
    ensures forall id: TaskId :: x.Has(id) ==> Somewhere(ws[w := x], id)
    ensures forall id: TaskId :: ws[w].Has(id) ==> Somewhere(ws, id)
    ensures forall id: TaskId :: QueuedAt(ws, id) ==> ws[w] == Queued(id) || QueuedAt(ws[w := x], id)
    ensures forall id: TaskId :: x == Queued(id) ==> QueuedAt(ws[w := x], id)
  {
    var us := ws[w := x];
    forall id: TaskId | Somewhere(us, id)
      ensures x.Has(id) || Somewhere(ws, id)
    {
      var v :| 0 <= v < |us| && us[v].Has(id);
      assert v != w ==> ws[v].Has(id);
    }
    forall id: TaskId | Somewhere(ws, id)
      ensures ws[w].Has(id) || Somewhere(us, id)
    {
      var v :| 0 <= v < |ws| && ws[v].Has(id);
      assert v != w ==> us[v].Has(id);
    }
    forall id: TaskId | QueuedAt(ws, id)
      ensures ws[w] == Queued(id) || QueuedAt(us, id)
    {
      var v :| 0 <= v < |ws| && ws[v] == Queued(id);
      assert v != w ==> us[v] == Queued(id);
    }
    assert us[w] == x;
  }

  /** A worker moves on with its task, or lets go of it: the other tasks stay where they are. */
  lemma HeldAfter(s: State, t: State, w: nat, x: Worker, id: TaskId)
    requires Exclusive(s) && w < |s.workers| && s.workers[w].Has(id)
    requires t.phase == s.phase && t.workers == s.workers[w := x]
    requires x.Has(id) || x == Finishing
    ensures Held(s, id)
    ensures forall i: TaskId :: Held(t, i) <==> Held(s, i) && (i == id ==> x.Has(id))
  {
    WorkerUpdate(s.workers, w, x);
    forall v | 0 <= v < |t.workers| && t.workers[v].Has(id)
      ensures x.Has(id)
    {
      assert v != w ==> !s.workers[v].Has(id);
    }
  }

  /** Placement survives a step that leaves map and completions alone and moves no task. */
  lemma PlacedKept(s: State, t: State)
    requires Placed(s) && t.nextId == s.nextId && t.tasks == s.tasks && t.completed == s.completed
    requires forall id: TaskId :: Held(t, id) <==> Held(s, id)
    requires forall id: TaskId :: Held(t, id) ==> id !in Popped(t.phase)
    ensures Placed(t)
  {
  }

  /** Wakes survive a step that keeps every due task due, or begins its poll, or completes it. */
  lemma WakesKeptOn(s: State, t: State)
    requires WakesKept(s) && s.completed <= t.completed && s.nextId <= t.nextId
    requires forall id: TaskId :: id in t.woken && id !in t.completed ==> id in s.woken || Due(t, id)
    requires forall id: TaskId :: Due(s, id) && id in t.woken && id !in t.completed ==> Due(t, id)
    requires forall id: TaskId :: id in t.queue || id in Popped(t.phase) ==>
               id in s.queue || id in Popped(s.phase) || id < t.nextId
    ensures WakesKept(t)
  {
  }

  /** A step of worker `w` from one stage of its task to the next. */
  lemma WorkerMoves(s: State, t: State, w: nat, x: Worker)
    requires Exclusive(s) && Synchronised(s) && w < |s.workers| && !s.workers[w].Idle?
    requires t.phase == s.phase && t.workers == s.workers[w := x]
    requires !x.Queued? && (forall id: TaskId :: x.Has(id) ==> s.workers[w].Has(id))
    requires w + 1 == |s.workers| ==> s.phase.Inline?
    ensures Exclusive(t) && Synchronised(t)
  {
    var n := |s.workers|;
    assert forall v :: 0 <= v < n && v != w ==> t.workers[v] == s.workers[v];
  }

  lemma BeginKeeps(s: State, w: nat)
    requires Inv(s) && Next(s, Begin(w)).Some?
    ensures Inv(Next(s, Begin(w)).value)
  {
    var t, id := Next(s, Begin(w)).value, s.workers[w].id;
    WorkerUpdate(s.workers, w, Polling(id));
    HeldAfter(s, t, w, Polling(id), id);
    PlacedKept(s, t);
    WorkerMoves(s, t, w, Polling(id));
    WakesKeptOn(s, t);
    BeginPolledOnce(s, w);
  }

  lemma BeginPolledOnce(s: State, w: nat)
    requires Inv(s) && Next(s, Begin(w)).Some?
    ensures PolledOnce(Next(s, Begin(w)).value)
  {
    var t, id := Next(s, Begin(w)).value, s.workers[w].id;
    assert s.workers[w].Has(id) && Held(s, id);
    assert !s.phase.Draining?;
    forall v | 0 <= v < |t.workers| && t.workers[v].Queued?
      ensures t.workers[v].id !in t.polled
    {
      assert v != w && s.workers[v] == t.workers[v];
      assert s.workers[v].Has(s.workers[v].id);
    }
  }

  lemma ReturnKeeps(s: State, w: nat, ready: bool)
    requires Inv(s) && Next(s, Return(w, ready)).Some?
    ensures Inv(Next(s, Return(w, ready)).value)
  {
    var t, id := Next(s, Return(w, ready)).value, s.workers[w].id;
    var x := if ready then Finishing else Storing(id);
    WorkerUpdate(s.workers, w, x);
    HeldAfter(s, t, w, x, id);
    assert Placed(t);
    WorkerMoves(s, t, w, x);
    WakesKeptOn(s, t);
    assert PolledOnce(t);
  }

  lemma StoreKeeps(s: State, w: nat)
    requires Inv(s) && Next(s, Store(w)).Some?
    ensures Inv(Next(s, Store(w)).value)
  {
    var t, id := Next(s, Store(w)).value, s.workers[w].id;
    WorkerUpdate(s.workers, w, Finishing);
    HeldAfter(s, t, w, Finishing, id);
    assert Placed(t);
    WorkerMoves(s, t, w, Finishing);
    WakesKeptOn(s, t);
    assert PolledOnce(t);
  }

  lemma FinishKeeps(s: State, w: nat)
    requires Inv(s) && Next(s, Finish(w)).Some?
    ensures Inv(Next(s, Finish(w)).value)
  {
    var t := Next(s, Finish(w)).value;
    WorkerUpdate(s.workers, w, Idle);
    assert forall i: TaskId :: Held(t, i) <==> Held(s, i);
    PlacedKept(s, t);
    WorkerMoves(s, t, w, Idle);
    WakesKeptOn(s, t);
    assert PolledOnce(t);
  }

  lemma ScanKeeps(s: State)
    requires Inv(s) && Next(s, Scan).Some?
    ensures Inv(Next(s, Scan).value)
  {
    var t, w, id := Next(s, Scan).value, s.phase.cpu, s.phase.id;
    assert Popped(t.phase) == Popped(s.phase);
    WorkerUpdate(s.workers, w, Queued(id));
    assert forall i: TaskId :: Held(t, i) <==> Held(s, i);
    PlacedKept(s, t);
    WakesKeptOn(s, t);
    ScanExclusive(s);
  }

  lemma ScanExclusive(s: State)
    requires Inv(s) && Next(s, Scan).Some?
    ensures var t := Next(s, Scan).value; Exclusive(t) && Synchronised(t) && PolledOnce(t)
  {
    var t, w, id := Next(s, Scan).value, s.phase.cpu, s.phase.id;
    assert Popped(t.phase) == Popped(s.phase);
    assert forall v :: 0 <= v < |s.workers| && v != w ==> t.workers[v] == s.workers[v];
    assert forall v :: 0 <= v < |s.workers| ==> !s.workers[v].Has(id);
  }

  lemma TakeKeeps(s: State, id: TaskId)
    requires Inv(s) && Next(s, Take(id)).Some?
    ensures Inv(Next(s, Take(id)).value)
  {
    var t := Next(s, Take(id)).value;
    assert Popped(s.phase) == s.phase.todo && Popped(t.phase) == s.phase.todo - {id};
    assert forall i: TaskId :: Held(t, i) <==> Held(s, i) || (i == id && id in s.tasks);
    assert !Held(s, id);
    assert Placed(t);
    assert id !in s.tasks ==> id in s.completed;
    WakesKeptOn(s, t);
    assert id in s.tasks ==> !Somewhere(s.workers, id);
    assert Exclusive(t) && Synchronised(t) && PolledOnce(t);
  }

  lemma PopKeeps(s: State)
    requires Inv(s) && Next(s, PopWake).Some?
    ensures Inv(Next(s, PopWake).value)
  {
    var t := Next(s, PopWake).value;
    assert s.queue != [] ==> s.queue[0] in s.queue && s.queue == [s.queue[0]] + s.queue[1..];
    assert forall i: TaskId :: !Held(s, i) && !Held(t, i);
    PlacedKept(s, t);
    assert Popped(s.phase) == s.phase.batch;
    assert Popped(t.phase) == if s.queue != [] then s.phase.batch + {s.queue[0]} else s.phase.batch;
    WakesKeptOn(s, t);
    assert Exclusive(t) && Synchronised(t) && PolledOnce(t);
  }

  lemma MainKeeps(s: State, a: Action)
    requires Inv(s) && Next(s, a).Some?
    requires a.StartRun? || a.EndInline? || a.EndBatch? || a.Wait?
    ensures Inv(Next(s, a).value)
  {
    var t := Next(s, a).value;
    assert Popped(t.phase) == Popped(s.phase);
    assert forall i: TaskId :: Held(t, i) <==> Held(s, i);
    PlacedKept(s, t);
    WakesKeptOn(s, t);
    assert Exclusive(t) && PolledOnce(t);
    assert Synchronised(t);
  }

  lemma CheckKeeps(s: State, a: Action)
    requires Inv(s) && Next(s, a).Some? && a.CheckTasks?
    ensures Inv(Next(s, a).value)
  {
    var t := Next(s, a).value;
    assert Popped(t.phase) == Popped(s.phase) == {};
    assert forall i: TaskId :: !Held(s, i) && !Held(t, i);
    PlacedKept(s, t);
    assert forall i: TaskId :: !QueuedAt(s.workers, i);
    WakesKeptOn(s, t);
    assert Exclusive(t) && Synchronised(t) && PolledOnce(t);
  }

  lemma WakeKeeps(s: State, id: TaskId)
    requires Inv(s) && Next(s, Wake(id)).Some?
    ensures Inv(Next(s, Wake(id)).value)
  {
    var t := Next(s, Wake(id)).value;
    if !t.phase.Panicked? {
      assert t.queue[|s.queue|] == id && id in t.queue;
      assert forall i: TaskId :: Held(t, i) <==> Held(s, i);
      PlacedKept(s, t);
      WakesKeptOn(s, t);
      assert Exclusive(t) && Synchronised(t) && PolledOnce(t);
    }
  }

  lemma SpawnKeeps(s: State)
    requires Inv(s) && Next(s, Spawn).Some?
    ensures Inv(Next(s, Spawn).value)
  {
    var t := Next(s, Spawn).value;
    if !t.phase.Panicked? {
      assert t.queue[|s.queue|] == s.nextId && s.nextId in t.queue;
      assert forall i: TaskId :: !Held(t, i) && !Held(s, i);
      assert Placed(t);
      WakesKeptOn(s, t);
      assert Exclusive(t) && Synchronised(t) && PolledOnce(t);
    }
  }

  lemma NextKeeps(s: State, a: Action)
    requires Inv(s) && Next(s, a).Some?
    ensures Inv(Next(s, a).value)
  {
    hide Next, Inv;
    match a
    case Spawn => SpawnKeeps(s);
    case StartRun => MainKeeps(s, a);
    case CheckTasks(_) => CheckKeeps(s, a);
    case PopWake => PopKeeps(s);
    case Take(id) => TakeKeeps(s, id);
    case Scan => ScanKeeps(s);
    case Begin(w) => BeginKeeps(s, w);
    case Return(w, ready) => ReturnKeeps(s, w, ready);
    case Store(w) => StoreKeeps(s, w);
    case Finish(w) => FinishKeeps(s, w);
    case EndInline => MainKeeps(s, a);
    case EndBatch => MainKeeps(s, a);
    case Wait => MainKeeps(s, a);
    case Wake(id) => WakeKeeps(s, id);
  }

  // ---------------------------------------------------------------- whole runs

  /** The state after a sequence of actions, if each of them was enabled. */
  function Execute(run: seq<Action>): Option<State>
  {
    if run == [] then Some(START)
    else
      var before := Execute(run[..|run| - 1]);
      if before.None? then None else Next(before.value, run[|run| - 1])
  }

  ghost predicate Reached(s: State, run: seq<Action>)
  {
    Execute(run) == Some(s)
  }

  lemma {:induction false} ReachedInv(s: State, run: seq<Action>)
    requires Reached(s, run)
    ensures Inv(s)
    decreases |run|
  {
    if run == [] {
      assert Placed(START) && Exclusive(START) && Synchronised(START) && WakesKept(START) && PolledOnce(START);
    } else {
      var before := Execute(run[..|run| - 1]).value;
      ReachedInv(before, run[..|run| - 1]);
      NextKeeps(before, run[|run| - 1]);
    }
  }

  // ---------------------------------------------------------------- what a run says about its tasks

  /** The number of tasks spawned; they are numbered in order. */
  function Spawned(run: seq<Action>): nat
  {
    if run == [] then 0
    else Spawned(run[..|run| - 1]) + if run[|run| - 1].Spawn? then 1 else 0
  }

  /** After this run, worker `w` is in this stage. */
  predicate WorkerAt(run: seq<Action>, w: nat, x: Worker)
  {
    var s := Execute(run);
    s.Some? && w < |s.value.workers| && s.value.workers[w] == x
  }

  /** Action `i` wakes task `id`, or spawns it. */
  predicate Wakes(run: seq<Action>, i: nat, id: TaskId)
    requires i < |run|
  {
    run[i] == Wake(id) || (run[i].Spawn? && Spawned(run[..i]) == id)
  }

  /** Action `i` begins a poll of task `id`. */
  predicate Begins(run: seq<Action>, i: nat, id: TaskId)
    requires i < |run|
  {
    run[i].Begin? && WorkerAt(run[..i], run[i].worker, Queued(id))
  }

  /** In action `i` a poll of task `id` returns Ready. */
  predicate Completes(run: seq<Action>, i: nat, id: TaskId)
    requires i < |run|
  {
    run[i].Return? && run[i].ready && WorkerAt(run[..i], run[i].worker, Polling(id))
  }

  /** The task was woken, and no poll of it has begun since. */
  ghost predicate Woken(run: seq<Action>, id: TaskId)
  {
    exists i :: 0 <= i < |run| && Wakes(run, i, id) && forall j :: i < j < |run| ==> !Begins(run, j, id)
  }

  ghost predicate Completed(run: seq<Action>, id: TaskId)
  {
    exists i :: 0 <= i < |run| && Completes(run, i, id)
  }

  /** A poll of the task began in the current batch. */
  ghost predicate PolledInBatch(run: seq<Action>, id: TaskId)
  {
    exists i :: 0 <= i < |run| && Begins(run, i, id) && forall j :: i < j < |run| ==> !run[j].CheckTasks?
  }

  // What happened at an action of a run does not depend on the rest of the run.
  lemma SamePrefix(run: seq<Action>, i: nat, id: TaskId)
    requires run != [] && i < |run| - 1
    ensures
      var prev := run[..|run| - 1];
      && prev[i] == run[i] && (Wakes(prev, i, id) <==> Wakes(run, i, id))
      && (Begins(prev, i, id) <==> Begins(run, i, id)) && (Completes(prev, i, id) <==> Completes(run, i, id))
  {
    assert run[..|run| - 1][..i] == run[..i];
  }

  lemma WokenSnoc(run: seq<Action>, id: TaskId)
    requires run != []
    ensures
      var n := |run| - 1;
      Woken(run, id) <==> Wakes(run, n, id) || (Woken(run[..n], id) && !Begins(run, n, id))
  {
    hide Wakes, Begins, Completes;
    var n, prev := |run| - 1, run[..|run| - 1];
    forall i | 0 <= i < n
      ensures (Wakes(prev, i, id) <==> Wakes(run, i, id)) && (Begins(prev, i, id) <==> Begins(run, i, id))
    {
      SamePrefix(run, i, id);
    }
    if Woken(prev, id) && !Begins(run, n, id) {
      var i :| 0 <= i < n && Wakes(prev, i, id) && forall j :: i < j < n ==> !Begins(prev, j, id);
      assert Wakes(run, i, id);
    }
    if Woken(run, id) && !Wakes(run, n, id) {
      var i :| 0 <= i < |run| && Wakes(run, i, id) && forall j :: i < j < |run| ==> !Begins(run, j, id);
      assert Wakes(prev, i, id);
    }
  }

  lemma CompletedSnoc(run: seq<Action>, id: TaskId)
    requires run != []
    ensures Completed(run, id) <==> Completes(run, |run| - 1, id) || Completed(run[..|run| - 1], id)
  {
    hide Wakes, Begins, Completes;
    var n, prev := |run| - 1, run[..|run| - 1];
    forall i | 0 <= i < n
      ensures Completes(prev, i, id) <==> Completes(run, i, id)
    {
      SamePrefix(run, i, id);
    }
    if Completed(prev, id) {
      var i :| 0 <= i < n && Completes(prev, i, id);
      assert Completes(run, i, id);
    }
  }

  lemma PolledSnoc(run: seq<Action>, id: TaskId)
    requires run != []
    ensures
      var n := |run| - 1;
      PolledInBatch(run, id) <==> Begins(run, n, id) || (PolledInBatch(run[..n], id) && !run[n].CheckTasks?)
  {
    hide Wakes, Begins, Completes;
    var n, prev := |run| - 1, run[..|run| - 1];
    forall i | 0 <= i < n
      ensures prev[i] == run[i] && (Begins(prev, i, id) <==> Begins(run, i, id))
    {
      SamePrefix(run, i, id);
    }
    if PolledInBatch(prev, id) && !run[n].CheckTasks? {
      var i :| 0 <= i < n && Begins(prev, i, id) && forall j :: i < j < n ==> !prev[j].CheckTasks?;
      assert Begins(run, i, id);
    }
    if PolledInBatch(run, id) && !Begins(run, n, id) {
      var i :| 0 <= i < |run| && Begins(run, i, id) && forall j :: i < j < |run| ==> !run[j].CheckTasks?;
      assert Begins(prev, i, id) && !run[n].CheckTasks?;
    }
  }

  /** The history kept in the state is the history of the run. */
  ghost predicate Recorded(s: State, run: seq<Action>)
  {
    && s.nextId == Spawned(run)
    && (forall id: TaskId :: id in s.woken <==> Woken(run, id))
    && (forall id: TaskId :: id in s.completed <==> Completed(run, id))
    && (!s.phase.Done? ==> forall id: TaskId :: id in s.polled <==> PolledInBatch(run, id))
  }

  // What the last action of a run says about one task, in terms of the state before it.
  lemma LastAction(run: seq<Action>, id: TaskId)
    requires run != [] && Execute(run).Some?
    ensures Execute(run[..|run| - 1]).Some?
    ensures
      var n, s, a := |run| - 1, Execute(run[..|run| - 1]).value, run[|run| - 1];
      && (Wakes(run, n, id) <==> a == Wake(id) || (a.Spawn? && Spawned(run[..n]) == id))
      && (Begins(run, n, id) <==> a.Begin? && a.worker < |s.workers| && s.workers[a.worker] == Queued(id))
      && (Completes(run, n, id) <==>
            a.Return? && a.ready && a.worker < |s.workers| && s.workers[a.worker] == Polling(id))
  {
  }

  lemma {:induction false} HistoryExact(s: State, run: seq<Action>)
    requires Reached(s, run) && !s.phase.Panicked?
    ensures Recorded(s, run)
    decreases |run|
  {
    if run != [] {
      var n, prev, a := |run| - 1, run[..|run| - 1], run[|run| - 1];
      var before := Execute(prev).value;
      HistoryExact(before, prev);
      forall id: TaskId
        ensures id in s.woken <==> Woken(run, id)
        ensures id in s.completed <==> Completed(run, id)
        ensures !s.phase.Done? ==> (id in s.polled <==> PolledInBatch(run, id))
      {
        TaskRecorded(s, run, id);
      }
    }
  }

  lemma TaskRecorded(s: State, run: seq<Action>, id: TaskId)
    requires run != [] && Reached(s, run) && !s.phase.Panicked?
    requires Recorded(Execute(run[..|run| - 1]).value, run[..|run| - 1])
    ensures id in s.woken <==> Woken(run, id)
    ensures id in s.completed <==> Completed(run, id)
    ensures !s.phase.Done? ==> (id in s.polled <==> PolledInBatch(run, id))
  {
    hide Wakes, Begins, Completes, Woken, Completed, PolledInBatch;
    LastAction(run, id);
    WokenSnoc(run, id);
    CompletedSnoc(run, id);
    PolledSnoc(run, id);
  }

  // ---------------------------------------------------------------- safety

  /** No lost wake: over every run, an uncompleted task that was woken and of which no poll has begun
      since is in the wake queue, or in the part of the batch whose poll has not begun. */
  lemma NoLostWake(s: State, run: seq<Action>, id: TaskId)
    requires Reached(s, run) && !s.phase.Panicked?
    requires Woken(run, id) && !Completed(run, id)
    ensures Due(s, id)
  {
    hide Woken, Completed, PolledInBatch;
    ReachedInv(s, run);
    HistoryExact(s, run);
  }

  /** When the main thread is back at the loop top, every such task is in the wake queue. */
  lemma WokenIsQueued(s: State, run: seq<Action>, id: TaskId)
    requires Reached(s, run) && s.phase.Top? && Woken(run, id) && !Completed(run, id)
    ensures id in s.queue
  {
    hide Woken, Completed, PolledInBatch;
    ReachedInv(s, run);
    HistoryExact(s, run);
    assert !QueuedAt(s.workers, id);
  }

  /** A poll begins at most once per batch for a task, never for a completed one, and no other CPU has
      the task then. */
  lemma PollsExclusive(s: State, run: seq<Action>, w: nat)
    requires Reached(s, run) && !s.phase.Panicked? && Next(s, Begin(w)).Some?
    ensures !PolledInBatch(run, s.workers[w].id) && !Completed(run, s.workers[w].id)
    ensures forall v :: 0 <= v < |s.workers| && v != w ==> !s.workers[v].Has(s.workers[w].id)
  {
    hide Woken, Completed, PolledInBatch;
    ReachedInv(s, run);
    HistoryExact(s, run);
    assert s.workers[w].Has(s.workers[w].id) && Held(s, s.workers[w].id);
  }

  /** At the loop top the map holds exactly the spawned tasks none of whose polls returned Ready. */
  lemma MapAtTop(s: State, run: seq<Action>)
    requires Reached(s, run) && (s.phase.Top? || s.phase.Draining? || s.phase.Done?)
    ensures forall id: TaskId :: id in s.tasks <==> id < Spawned(run) && !Completed(run, id)
  {
    hide Woken, Completed, PolledInBatch;
    ReachedInv(s, run);
    HistoryExact(s, run);
    assert forall id: TaskId :: !Held(s, id);
  }

  /** At the loop top `run` returns if and only if a poll of every spawned task has returned Ready; otherwise
      it goes on with all CPUs known at that time, none of them busy. */
  lemma ReturnsWhenComplete(s: State, run: seq<Action>, cpus: nat)
    requires Reached(s, run) && s.phase.Top?
    ensures Next(s, CheckTasks(cpus)).Some?
    ensures Next(s, CheckTasks(cpus)).value.phase.Done?
        <==> forall id: TaskId :: 0 <= id < Spawned(run) ==> Completed(run, id)
    ensures
      var t := Next(s, CheckTasks(cpus)).value;
      !t.phase.Done? ==> |t.workers| == cpus + 1 && forall w :: 0 <= w <= cpus ==> t.workers[w].Idle?
  {
    hide Completed;
    MapAtTop(s, run);
    assert s.tasks == {} <==> forall id: TaskId :: id !in s.tasks;
  }

  /** Once `run` has returned, exactly the spawned tasks have completed. */
  lemma ReturnedComplete(s: State, run: seq<Action>)
    requires Reached(s, run) && s.phase.Done?
    ensures forall id: TaskId :: Completed(run, id) <==> id < Spawned(run)
  {
    hide Woken, Completed, PolledInBatch;
    ReachedInv(s, run);
    HistoryExact(s, run);
    assert forall id: TaskId :: !Held(s, id);
  }

  /** A batch entry that is missing from the map is a completed task. */
  lemma MissingIsCompleted(s: State, run: seq<Action>, id: TaskId)
    requires Reached(s, run) && s.phase.Batch? && id in s.phase.todo
    ensures id in s.tasks <==> !Completed(run, id)
  {
    hide Woken, Completed, PolledInBatch;
    ReachedInv(s, run);
    HistoryExact(s, run);
    assert id in Popped(s.phase) && !Held(s, id);
  }

  /** In action `k` the main thread looked at CPU `v` for task `id` and found it busy. */
  predicate SawBusy(run: seq<Action>, k: nat, id: TaskId, v: nat)
    requires k < |run|
  {
    var s := Execute(run[..k]);
    && run[k].Scan? && s.Some? && s.value.phase.Scanning? && s.value.phase.id == id && s.value.phase.cpu == v
    && v < |s.value.workers| && !s.value.workers[v].Idle?
  }

  ghost predicate SawBusySince(run: seq<Action>, j: nat, id: TaskId, v: nat)
  {
    exists k :: j < k < |run| && SawBusy(run, k, id, v)
  }

  /** Since action `j` took the task, the first `n` CPUs were found busy. */
  ghost predicate FoundBusy(run: seq<Action>, j: nat, id: TaskId, n: nat)
  {
    && j < |run| && run[j] == Take(id)
    && forall v :: 0 <= v < n ==> SawBusySince(run, j, id, v)
  }

  lemma FoundBusyLonger(run: seq<Action>, j: nat, id: TaskId, n: nat)
    requires run != [] && FoundBusy(run[..|run| - 1], j, id, n)
    ensures FoundBusy(run, j, id, n)
  {
    var prev := run[..|run| - 1];
    forall v | 0 <= v < n
      ensures SawBusySince(run, j, id, v)
    {
      assert SawBusySince(prev, j, id, v);
      var k :| j < k < |prev| && SawBusy(prev, k, id, v);
      assert prev[..k] == run[..k];
      assert SawBusy(run, k, id, v);
    }
  }

  lemma {:induction false} ScanningFoundBusy(s: State, run: seq<Action>)
    requires Reached(s, run) && s.phase.Scanning?
    ensures exists j :: FoundBusy(run, j, s.phase.id, s.phase.cpu)
    decreases |run|
  {
    hide FoundBusy, SawBusy;
    var n, prev, a := |run| - 1, run[..|run| - 1], run[|run| - 1];
    var before := Execute(prev).value;
    if a.Take? {
      JustTaken(run, s.phase.id);
    } else {
      ScanningFoundBusy(before, prev);
      var j :| FoundBusy(prev, j, before.phase.id, before.phase.cpu);
      FoundBusyLonger(run, j, before.phase.id, before.phase.cpu);
      if a.Scan? {
        OneMoreBusy(run, j, before);
      }
    }
  }

  lemma JustTaken(run: seq<Action>, id: TaskId)
    requires run != [] && run[|run| - 1] == Take(id)
    ensures FoundBusy(run, |run| - 1, id, 0)
  {
  }

  lemma OneMoreBusy(run: seq<Action>, j: nat, before: State)
    requires run != [] && run[|run| - 1].Scan? && Execute(run[..|run| - 1]) == Some(before) && before.phase.Scanning?
    requires before.phase.cpu < |before.workers| && !before.workers[before.phase.cpu].Idle?
    requires j < |run| - 1 && FoundBusy(run, j, before.phase.id, before.phase.cpu)
    ensures FoundBusy(run, j, before.phase.id, before.phase.cpu + 1)
  {
    assert SawBusy(run, |run| - 1, before.phase.id, before.phase.cpu);
  }

  /** Dispatch: the CPU looked at gets the task if it is idle; and whoever gets it, the main thread
      included, every CPU before it was found busy since the task was taken. */
  lemma Dispatch(s: State, run: seq<Action>)
    requires Reached(s, run) && s.phase.Scanning?
    ensures Next(s, Scan).Some?
    ensures
      var t, w := Next(s, Scan).value, s.phase.cpu;
      && (t.workers != s.workers ==> t.workers == s.workers[w := Queued(s.phase.id)])
      && (t.workers != s.workers <==> s.workers[w].Idle?)
      && exists j :: FoundBusy(run, j, s.phase.id, w)
  {
    hide FoundBusy;
    ReachedInv(s, run);
    ScanningFoundBusy(s, run);
    assert s.workers[s.phase.cpu := Queued(s.phase.id)][s.phase.cpu] == Queued(s.phase.id);
  }

  /** A wake or a spawn panics exactly when 1024 wakes are queued; nothing else does. */
  lemma PanicsWhenFull(s: State, a: Action)
    requires Next(s, a).Some?
    ensures Next(s, a).value.phase.Panicked? <==> (a.Wake? || a.Spawn?) && |s.queue| == 1024
  {
  }
}
