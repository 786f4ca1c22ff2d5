/** The green-thread scheduler: tasks, workers sharing one run queue, and whoever wakes a task.
    Every step is one atomic operation of the code (an atomic load, store or exchange, a section
    under the queue's lock, a wait or a notification), interleaved freely. */
module Scheduler {
  import opened Wrappers

  type TaskId = nat
  type WorkerId = nat
  type WakerId = nat

  datatype Status = Queued | Running | Parked | Notified | Done

  /** Where a worker stands in its loop. */
  datatype Worker =
    | Looking               // about to take the queue's lock
    | Locked                // holds the lock
    | SawLive               // holds the lock, found no task, read a live count above zero
    | Asleep                // waits for a notification
    | Popped(task: TaskId)
    | Resumed(task: TaskId)
    | Yielded(task: TaskId)
    | Parking(task: TaskId)
    | Renotified(task: TaskId)  // could not park: woken meanwhile
    | Ended(task: TaskId)
    | Counting(task: TaskId)    // marked done, not yet subtracted from the live count
    | Last                  // finished the last task, has yet to notify
    | Pushing(task: TaskId)
    | Pushed                // has yet to notify one worker
    | Returned

  /** A call to `wake`, or the end of a `spawn`. */
  datatype Waker =
    | Loading(task: TaskId)
    | SawParked(task: TaskId)
    | SawRunning(task: TaskId)
    | Queueing(task: TaskId)
    | Notifying

  datatype State = State(
    status: map<TaskId, Status>,
    queue: seq<TaskId>,
    live: int,
    holder: Option<WorkerId>,
    workers: map<WorkerId, Worker>,
    wakers: map<WakerId, Waker>)

  datatype Suspension = Yields | Parks | Ends

  datatype Action =
    | Lock(w: WorkerId)
    | Look(w: WorkerId)
    | Sleep(w: WorkerId)
    | Rouse(w: WorkerId)                    // a wait may end by itself
    | Resume(w: WorkerId)
    | Suspend(w: WorkerId, how: Suspension)
    | Requeue(w: WorkerId)
    | TryPark(w: WorkerId)
    | Finish(w: WorkerId)
    | Count(w: WorkerId)
    | NotifyAll(w: WorkerId)
    | Push(w: WorkerId)
    | NotifyOne(w: WorkerId, sleeper: WorkerId)
    | Wake(k: WakerId, task: TaskId)
    | Load(k: WakerId)
    | Exchange(k: WakerId)
    | WakerPush(k: WakerId)
    | WakerNotify(k: WakerId, sleeper: WorkerId)
    | Spawn(k: WakerId, task: TaskId, spawner: TaskId)

  predicate Sleeping(s: State, w: WorkerId) { w in s.workers && s.workers[w].Asleep? }

  /** The task may spawn others: itself, or from the thread of a blocking call it waits for. */
  predicate IsLive(s: State, t: TaskId) { t in s.status && !s.status[t].Done? }

  predicate NoneAsleep(s: State) { forall w :: w in s.workers ==> !s.workers[w].Asleep? }

  /** Notifying one waiting worker, any of them; nothing happens when none waits. */
  function Notified1(s: State, sleeper: WorkerId): State {
    if Sleeping(s, sleeper) then s.(workers := s.workers[sleeper := Looking]) else s
  }

  predicate CanNotify(s: State, sleeper: WorkerId) { Sleeping(s, sleeper) || NoneAsleep(s) }

  /** One step; an action that is not possible changes nothing. */
  function Step(s: State, a: Action): State {
    match a
    case Wake(k, task) =>
      if k !in s.wakers && task in s.status then s.(wakers := s.wakers[k := Loading(task)]) else s
    case Load(k) => if k in s.wakers then WakerLoad(s, k) else s
    case Exchange(k) => if k in s.wakers then WakerExchange(s, k) else s
    case WakerPush(k) =>
      if k in s.wakers && s.wakers[k].Queueing? && s.holder.None? then
        s.(queue := s.queue + [s.wakers[k].task], wakers := s.wakers[k := Notifying])
      else s
    case WakerNotify(k, sleeper) =>
      if k in s.wakers && s.wakers[k].Notifying? && CanNotify(s, sleeper) then
        Notified1(s, sleeper).(wakers := s.wakers - {k})
      else s
    case Spawn(k, task, spawner) =>
      if k !in s.wakers && task !in s.status && IsLive(s, spawner) then
        s.(status := s.status[task := Queued], live := s.live + 1, wakers := s.wakers[k := Queueing(task)])
      else s
    case _ => if a.w in s.workers then WorkerStep(s, a) else s
  }

  function WakerLoad(s: State, k: WakerId): State
    requires k in s.wakers
  {
    if !s.wakers[k].Loading? then s
    else
      var task := s.wakers[k].task;
      if task !in s.status then s
      else match s.status[task]
        case Parked => s.(wakers := s.wakers[k := SawParked(task)])
        case Running => s.(wakers := s.wakers[k := SawRunning(task)])
        case _ => s.(wakers := s.wakers - {k})
  }

  function WakerExchange(s: State, k: WakerId): State
    requires k in s.wakers
  {
    match s.wakers[k]
    case SawParked(task) =>
      if task !in s.status then s
      else if s.status[task].Parked? then
        s.(status := s.status[task := Queued], wakers := s.wakers[k := Queueing(task)])
      else s.(wakers := s.wakers[k := Loading(task)])
    case SawRunning(task) =>
      if task !in s.status then s
      else if s.status[task].Running? then
        s.(status := s.status[task := Notified], wakers := s.wakers - {k})
      else s.(wakers := s.wakers[k := Loading(task)])
    case _ => s
  }

  predicate IsWorkerAction(a: Action) {
    !(a.Wake? || a.Load? || a.Exchange? || a.WakerPush? || a.WakerNotify? || a.Spawn?)
  }

  function WorkerStep(s: State, a: Action): State
    requires IsWorkerAction(a) && a.w in s.workers
  {
    var w := a.w;
    var here := s.workers[w];
    match a
    case Lock(_) =>
      if here.Looking? && s.holder.None? then s.(holder := Some(w), workers := s.workers[w := Locked]) else s
    case Look(_) =>
      if !here.Locked? then s
      else if s.queue != [] then
        s.(queue := s.queue[1..], holder := None, workers := s.workers[w := Popped(s.queue[0])])
      else if s.live == 0 then s.(holder := None, workers := s.workers[w := Returned])
      else s.(workers := s.workers[w := SawLive])
    case Sleep(_) => if here.SawLive? then s.(holder := None, workers := s.workers[w := Asleep]) else s
    case Rouse(_) => if here.Asleep? then s.(workers := s.workers[w := Looking]) else s
    case Resume(_) =>
      if here.Popped? then
        s.(status := s.status[here.task := Running], workers := s.workers[w := Resumed(here.task)])
      else s
    case Suspend(_, how) =>
      if !here.Resumed? then s
      else s.(workers := s.workers[w :=
        match how case Yields => Yielded(here.task) case Parks => Parking(here.task) case Ends => Ended(here.task)])
    case Requeue(_) =>
      if here.Yielded? || here.Renotified? then
        s.(status := s.status[here.task := Queued], workers := s.workers[w := Pushing(here.task)])
      else s
    case TryPark(_) =>
      if !here.Parking? || here.task !in s.status then s
      else if s.status[here.task].Running? then
        s.(status := s.status[here.task := Parked], workers := s.workers[w := Looking])
      else s.(workers := s.workers[w := Renotified(here.task)])
    case Finish(_) =>
      if here.Ended? then s.(status := s.status[here.task := Done], workers := s.workers[w := Counting(here.task)])
      else s
    case Count(_) =>
      if here.Counting? then
        s.(live := s.live - 1, workers := s.workers[w := if s.live == 1 then Last else Looking])
      else s
    case NotifyAll(_) =>
      if here.Last? && s.holder.None? then
        s.(workers := map v | v in s.workers :: if v == w || s.workers[v].Asleep? then Looking else s.workers[v])
      else s
    case Push(_) =>
      if here.Pushing? && s.holder.None? then
        s.(queue := s.queue + [here.task], workers := s.workers[w := Pushed])
      else s
    case NotifyOne(_, sleeper) =>
      if here.Pushed? && CanNotify(s, sleeper) then
        Notified1(s.(workers := s.workers[w := Looking]), sleeper)
      else s
  }

  /** The first task queued, and the workers starting. */
  function Start(workers: set<WorkerId>): State {
    State(map[0 := Queued], [0], 1, None, map w | w in workers :: Looking, map[])
  }

  function Play(s: State, actions: seq<Action>): State
    decreases |actions|
  {
    if actions == [] then s else Play(Step(s, actions[0]), actions[1..])
  }

  // ── Who holds a task ─────────────────────────────────────

  /** `Waiting`: parked; `Gone`: done, and no longer counted as live. */
  datatype Place = InQueue | OnWorker(w: WorkerId) | OnWaker(k: WakerId) | Waiting | Gone

  predicate HasTask(here: Worker) {
    here.Popped? || here.Resumed? || here.Yielded? || here.Parking? || here.Renotified? || here.Ended?
    || here.Counting? || here.Pushing?
  }

  predicate StatusFits(here: Worker, status: Status) {
    match here
    case Popped(_) | Pushing(_) => status.Queued?
    case Resumed(_) | Yielded(_) | Parking(_) | Ended(_) => status.Running? || status.Notified?
    case Renotified(_) => status.Notified?
    case Counting(_) => status.Done?
    case _ => true
  }

  /** Task `t`, of status `s.status[t]`, is at `p`. */
  predicate IsAt(s: State, t: TaskId, p: Place) {
    t in s.status &&
    match p
    case InQueue => s.status[t].Queued? && t in s.queue
    case OnWorker(w) =>
      w in s.workers && HasTask(s.workers[w]) && s.workers[w].task == t && StatusFits(s.workers[w], s.status[t])
    case OnWaker(k) => k in s.wakers && s.wakers[k] == Queueing(t) && s.status[t].Queued?
    case Waiting => s.status[t].Parked?
    case Gone => s.status[t].Done?
  }

  predicate Distinct(q: seq<TaskId>) { forall i, j :: 0 <= i < j < |q| ==> q[i] != q[j] }

  /** `place` says where each task is, and nothing holds a task elsewhere. */
  ghost predicate Placed(s: State, place: map<TaskId, Place>) {
    && place.Keys == s.status.Keys
    && (forall t :: t in s.status ==> IsAt(s, t, place[t]))
    && Distinct(s.queue)
    && (forall i :: 0 <= i < |s.queue| ==> s.queue[i] in s.status && place[s.queue[i]] == InQueue)
    && (forall w :: w in s.workers && HasTask(s.workers[w]) ==>
         s.workers[w].task in s.status && place[s.workers[w].task] == OnWorker(w))
    && (forall k :: k in s.wakers && !s.wakers[k].Notifying? ==> s.wakers[k].task in s.status)
    && (forall k :: k in s.wakers && s.wakers[k].Queueing? ==> place[s.wakers[k].task] == OnWaker(k))
  }

  ghost predicate LockHeld(s: State) {
    && (s.holder.Some? ==> s.holder.value in s.workers)
    && (forall w :: w in s.workers ==> (s.workers[w].Locked? || s.workers[w].SawLive? <==> s.holder == Some(w)))
    && (forall w :: w in s.workers && s.workers[w].SawLive? ==> s.queue == [])
  }

  /** The tasks still counted as live. */
  ghost function Unfinished(place: map<TaskId, Place>): set<TaskId> {
    set t | t in place && !place[t].Gone?
  }

  /** The workers that look into the queue before they sleep again. */
  ghost function Hunters(workers: map<WorkerId, Worker>): set<WorkerId> {
    set w | w in workers && Hunts(workers[w])
  }

  predicate Hunts(here: Worker) { here.Looking? || here.Locked? || here.Pushed? }

  ghost function Heralds(wakers: map<WakerId, Waker>): set<WakerId> {
    set k | k in wakers && wakers[k].Notifying?
  }

  /** No queued task waits for a sleeping worker that nobody will notify. */
  ghost predicate Attended(s: State) {
    NoneAsleep(s) || |s.queue| <= |Hunters(s.workers)| + |Heralds(s.wakers)|
  }

  /** Once no task is live, nobody sleeps unless the last one to finish has yet to notify. */
  ghost predicate Drained(s: State) {
    s.live == 0 ==>
      || (exists w :: w in s.workers && s.workers[w].Last?)
      || (forall w :: w in s.workers ==> !s.workers[w].Asleep? && !s.workers[w].SawLive?)
  }

  ghost predicate ReturnedLast(s: State) {
    (exists w :: w in s.workers && s.workers[w].Returned?) ==> s.live == 0
  }

  ghost predicate Inv(s: State, place: map<TaskId, Place>) {
    && Placed(s, place)
    && LockHeld(s)
    && s.live == |Unfinished(place)|
    && Attended(s)
    && Drained(s)
    && ReturnedLast(s)
  }

  // ── Every step keeps it ──────────────────────────────────

  function NextPlace(s: State, place: map<TaskId, Place>, a: Action): map<TaskId, Place> {
    match a
    case WakerPush(k) =>
      if k in s.wakers && s.wakers[k].Queueing? && s.holder.None? then place[s.wakers[k].task := InQueue] else place
    case Exchange(k) =>
      if k in s.wakers && s.wakers[k].SawParked? && s.wakers[k].task in s.status
         && s.status[s.wakers[k].task].Parked?
      then place[s.wakers[k].task := OnWaker(k)] else place
    case Spawn(k, task, spawner) =>
      if k !in s.wakers && task !in s.status && IsLive(s, spawner)
      then place[task := OnWaker(k)] else place
    case Look(w) =>
      if w in s.workers && s.workers[w].Locked? && s.queue != [] then place[s.queue[0] := OnWorker(w)] else place
    case Push(w) =>
      if w in s.workers && s.workers[w].Pushing? && s.holder.None? then place[s.workers[w].task := InQueue] else place
    case TryPark(w) =>
      if w in s.workers && s.workers[w].Parking? && s.workers[w].task in s.status
         && s.status[s.workers[w].task].Running?
      then place[s.workers[w].task := Waiting] else place
    case Count(w) =>
      if w in s.workers && s.workers[w].Counting? then place[s.workers[w].task := Gone] else place
    case _ => place
  }

  /** A worker without a task moves on, still without one. */
  lemma IdleWorker(s: State, place: map<TaskId, Place>, w: WorkerId, here: Worker)
    requires Placed(s, place) && w in s.workers && !HasTask(s.workers[w]) && !HasTask(here)
    ensures Placed(s.(workers := s.workers[w := here]), place)
  {
    var s' := s.(workers := s.workers[w := here]);
    forall t | t in s'.status ensures IsAt(s', t, place[t]) {
      assert IsAt(s, t, place[t]);
    }
  }

  lemma IdleWorkers(s: State, s': State, place: map<TaskId, Place>)
    requires Placed(s, place) && s' == s.(workers := s'.workers) && s'.workers.Keys == s.workers.Keys
    requires forall w :: w in s.workers && (HasTask(s.workers[w]) || HasTask(s'.workers[w])) ==>
               s'.workers[w] == s.workers[w]
    ensures Placed(s', place)
  {
    forall t | t in s'.status ensures IsAt(s', t, place[t]) {
      assert IsAt(s, t, place[t]);
    }
  }

  /** A waker that holds no task moves on, still without one, or ends. */
  lemma IdleWaker(s: State, place: map<TaskId, Place>, k: WakerId, here: Waker)
    requires Placed(s, place) && (k in s.wakers ==> !s.wakers[k].Queueing?)
    requires here.Loading? || here.SawParked? || here.SawRunning?
    requires here.task in s.status
    ensures Placed(s.(wakers := s.wakers[k := here]), place)
    ensures Placed(s.(wakers := s.wakers - {k}), place)
  {
    var s' := s.(wakers := s.wakers[k := here]);
    forall t | t in s'.status ensures IsAt(s', t, place[t]) {
      assert IsAt(s, t, place[t]);
    }
    var s'' := s.(wakers := s.wakers - {k});
    forall t | t in s''.status ensures IsAt(s'', t, place[t]) {
      assert IsAt(s, t, place[t]);
    }
  }

  lemma WakerEnds(s: State, place: map<TaskId, Place>, k: WakerId)
    requires Placed(s, place) && k in s.wakers && !s.wakers[k].Queueing?
    ensures Placed(s.(wakers := s.wakers - {k}), place)
  {
    var s' := s.(wakers := s.wakers - {k});
    forall t | t in s'.status ensures IsAt(s', t, place[t]) {
      assert IsAt(s, t, place[t]);
    }
  }

  lemma SameTasks(s: State, s': State, place: map<TaskId, Place>)
    requires Placed(s, place)
    requires s'.status == s.status && s'.queue == s.queue && s'.workers == s.workers && s'.wakers == s.wakers
    ensures Placed(s', place)
  {
    forall t | t in s'.status ensures IsAt(s', t, place[t]) {
      assert IsAt(s, t, place[t]);
    }
  }

  lemma OneNotified(s: State, place: map<TaskId, Place>, sleeper: WorkerId)
    requires Placed(s, place)
    ensures Placed(Notified1(s, sleeper), place)
  {
    if Sleeping(s, sleeper) {
      IdleWorker(s, place, sleeper, Looking);
    }
  }

  /** Worker `w` keeps its task, whose status changes. */
  lemma KeepingStep(s: State, place: map<TaskId, Place>, w: WorkerId, here: Worker, status: Status)
    requires Placed(s, place)
    requires w in s.workers && HasTask(s.workers[w]) && HasTask(here) && here.task == s.workers[w].task
    requires StatusFits(here, status)
    ensures Placed(s.(status := s.status[here.task := status], workers := s.workers[w := here]), place)
  {
    var s' := s.(status := s.status[here.task := status], workers := s.workers[w := here]);
    assert s'.status.Keys == s.status.Keys;
    forall t | t in s'.status ensures IsAt(s', t, place[t]) {
      assert IsAt(s, t, place[t]);
    }
  }

  /** Worker `w` gives up its task, queued or held by nobody. */
  lemma LeavingStep(s: State, place: map<TaskId, Place>, w: WorkerId, here: Worker, status: Status, to: Place)
    requires Placed(s, place) && w in s.workers && HasTask(s.workers[w]) && !HasTask(here)
    requires (to.InQueue? && status.Queued?) || (to.Waiting? && status.Parked?) || (to.Gone? && status.Done?)
    ensures var t := s.workers[w].task;
      Placed(s.(status := s.status[t := status],
                queue := if to.InQueue? then s.queue + [t] else s.queue,
                workers := s.workers[w := here]),
             place[t := to])
  {
    var t0 := s.workers[w].task;
    assert place[t0] == OnWorker(w);
    assert t0 !in s.queue;
    var s' := s.(status := s.status[t0 := status],
                 queue := if to.InQueue? then s.queue + [t0] else s.queue,
                 workers := s.workers[w := here]);
    var place' := place[t0 := to];
    assert s'.status.Keys == s.status.Keys;
    forall t | t in s'.status ensures IsAt(s', t, place'[t]) {
      assert IsAt(s, t, place[t]);
    }
  }

  lemma PoppingStep(s: State, place: map<TaskId, Place>, w: WorkerId)
    requires Placed(s, place) && w in s.workers && !HasTask(s.workers[w]) && s.queue != []
    ensures Placed(s.(queue := s.queue[1..], workers := s.workers[w := Popped(s.queue[0])]),
                   place[s.queue[0] := OnWorker(w)])
  {
    var t0 := s.queue[0];
    assert place[t0] == InQueue;
    var s' := s.(queue := s.queue[1..], workers := s.workers[w := Popped(t0)]);
    var place' := place[t0 := OnWorker(w)];
    forall t | t in s'.status ensures IsAt(s', t, place'[t]) {
      assert IsAt(s, t, place[t]);
    }
  }

  /** Waker `k` takes hold of a parked or new task. */
  lemma TakingStep(s: State, place: map<TaskId, Place>, k: WakerId, t0: TaskId)
    requires Placed(s, place)
    requires t0 in s.status ==> s.status[t0].Parked?
    requires k in s.wakers ==> !s.wakers[k].Queueing?
    ensures Placed(s.(status := s.status[t0 := Queued], wakers := s.wakers[k := Queueing(t0)]), place[t0 := OnWaker(k)])
  {
    var s' := s.(status := s.status[t0 := Queued], wakers := s.wakers[k := Queueing(t0)]);
    var place' := place[t0 := OnWaker(k)];
    assert t0 in s.status ==> IsAt(s, t0, place[t0]);
    forall t | t in s'.status ensures IsAt(s', t, place'[t]) {
      assert t in s.status ==> IsAt(s, t, place[t]);
    }
  }

  lemma WakerPushStep(s: State, place: map<TaskId, Place>, k: WakerId)
    requires Placed(s, place) && k in s.wakers && s.wakers[k].Queueing?
    ensures var t := s.wakers[k].task;
      Placed(s.(queue := s.queue + [t], wakers := s.wakers[k := Notifying]), place[t := InQueue])
  {
    var t0 := s.wakers[k].task;
    assert place[t0] == OnWaker(k) && IsAt(s, t0, place[t0]);
    assert t0 !in s.queue;
    var s' := s.(queue := s.queue + [t0], wakers := s.wakers[k := Notifying]);
    var place' := place[t0 := InQueue];
    forall t | t in s'.status ensures IsAt(s', t, place'[t]) {
      assert IsAt(s, t, place[t]);
    }
  }

  lemma NotifiedStep(s: State, place: map<TaskId, Place>, k: WakerId)
    requires Placed(s, place) && k in s.wakers && s.wakers[k].SawRunning?
    requires s.wakers[k].task in s.status && s.status[s.wakers[k].task].Running?
    ensures Placed(s.(status := s.status[s.wakers[k].task := Notified], wakers := s.wakers - {k}), place)
  {
    var t0 := s.wakers[k].task;
    var s' := s.(status := s.status[t0 := Notified], wakers := s.wakers - {k});
    assert s'.status.Keys == s.status.Keys;
    forall t | t in s'.status ensures IsAt(s', t, place[t]) {
      assert IsAt(s, t, place[t]);
    }
  }

  lemma WakerKeepsPlaces(s: State, place: map<TaskId, Place>, a: Action)
    requires Placed(s, place) && (a.Wake? || a.Load? || a.WakerNotify?)
    ensures Placed(Step(s, a), place)
  {
    match a
    case Wake(k, task) =>
      if k !in s.wakers && task in s.status {
        IdleWaker(s, place, k, Loading(task));
      }
    case Load(k) =>
      if k in s.wakers && s.wakers[k].Loading? {
        var task := s.wakers[k].task;
        IdleWaker(s, place, k, SawParked(task));
        IdleWaker(s, place, k, SawRunning(task));
      }
    case WakerNotify(k, sleeper) =>
      if k in s.wakers && s.wakers[k].Notifying? && CanNotify(s, sleeper) {
        OneNotified(s, place, sleeper);
        WakerEnds(Notified1(s, sleeper), place, k);
      }
  }

  lemma WakerMovesTask(s: State, place: map<TaskId, Place>, a: Action)
    requires Placed(s, place) && (a.Exchange? || a.WakerPush? || a.Spawn?)
    ensures Placed(Step(s, a), NextPlace(s, place, a))
  {
    var s' := Step(s, a);
    if s' != s {
      match a
      case WakerPush(k) => WakerPushStep(s, place, k);
      case Spawn(k, task, _) => TakingStep(s, place, k, task);
      case Exchange(k) =>
        var task := s.wakers[k].task;
        if s.wakers[k].SawParked? && s.status[task].Parked? {
          TakingStep(s, place, k, task);
        } else if s.wakers[k].SawRunning? && s.status[task].Running? {
          NotifiedStep(s, place, k);
        } else {
          IdleWaker(s, place, k, Loading(task));
        }
    }
  }

  lemma WorkerKeepsPlaces(s: State, place: map<TaskId, Place>, a: Action)
    requires Placed(s, place) && (a.Lock? || a.Sleep? || a.Rouse? || a.NotifyOne?)
    ensures Placed(Step(s, a), place)
  {
    var w := a.w;
    if w in s.workers && !HasTask(s.workers[w]) {
      match a
      case Lock(_) => SameTasks(s, s.(holder := Some(w)), place); IdleWorker(s.(holder := Some(w)), place, w, Locked);
      case Sleep(_) => SameTasks(s, s.(holder := None), place); IdleWorker(s.(holder := None), place, w, Asleep);
      case Rouse(_) => IdleWorker(s, place, w, Looking);
      case NotifyOne(_, sleeper) =>
        IdleWorker(s, place, w, Looking);
        OneNotified(s.(workers := s.workers[w := Looking]), place, sleeper);
    }
  }

  lemma NotifyAllKeepsPlaces(s: State, place: map<TaskId, Place>, w: WorkerId)
    requires Placed(s, place)
    ensures Placed(Step(s, NotifyAll(w)), place)
  {
    var s' := Step(s, NotifyAll(w));
    if s' != s {
      IdleWorkers(s, s', place);
    }
  }

  lemma WorkerKeepsTask(s: State, place: map<TaskId, Place>, a: Action)
    requires Placed(s, place) && (a.Resume? || a.Suspend? || a.Requeue? || a.Finish?)
    ensures Placed(Step(s, a), place)
  {
    var s' := Step(s, a);
    if s' != s {
      var w := a.w;
      var t := s.workers[w].task;
      match a
      case Resume(_) => KeepingStep(s, place, w, Resumed(t), Running);
      case Suspend(_, how) =>
        assert s.status[t := s.status[t]] == s.status;
        KeepingStep(s, place, w, s'.workers[w], s.status[t]);
      case Requeue(_) => KeepingStep(s, place, w, Pushing(t), Queued);
      case Finish(_) => KeepingStep(s, place, w, Counting(t), Done);
    }
  }

  lemma LookKeepsPlaces(s: State, place: map<TaskId, Place>, w: WorkerId)
    requires Placed(s, place)
    ensures Placed(Step(s, Look(w)), NextPlace(s, place, Look(w)))
  {
    if w in s.workers && s.workers[w].Locked? {
      SameTasks(s, s.(holder := None), place);
      if s.queue != [] {
        PoppingStep(s.(holder := None), place, w);
      } else {
        IdleWorker(s.(holder := None), place, w, Returned);
        IdleWorker(s, place, w, SawLive);
      }
    }
  }

  lemma ParkKeepsPlaces(s: State, place: map<TaskId, Place>, w: WorkerId)
    requires Placed(s, place)
    ensures Placed(Step(s, TryPark(w)), NextPlace(s, place, TryPark(w)))
  {
    if w in s.workers && s.workers[w].Parking? {
      var t := s.workers[w].task;
      if s.status[t].Running? {
        LeavingStep(s, place, w, Looking, Parked, Waiting);
      } else {
        assert s.status[t := s.status[t]] == s.status;
        KeepingStep(s, place, w, Renotified(t), s.status[t]);
      }
    }
  }

  lemma DepartureKeepsPlaces(s: State, place: map<TaskId, Place>, a: Action)
    requires Placed(s, place) && (a.Count? || a.Push?)
    ensures Placed(Step(s, a), NextPlace(s, place, a))
  {
    var w := a.w;
    if w in s.workers && HasTask(s.workers[w]) {
      var t := s.workers[w].task;
      assert s.status[t := s.status[t]] == s.status;
      if a.Count? && s.workers[w].Counting? {
        var s1 := s.(live := s.live - 1);
        SameTasks(s, s1, place);
        LeavingStep(s1, place, w, if s.live == 1 then Last else Looking, s.status[t], Gone);
      } else if a.Push? && s.workers[w].Pushing? {
        LeavingStep(s, place, w, Pushed, s.status[t], InQueue);
      }
    }
  }

  lemma StepKeepsPlaces(s: State, place: map<TaskId, Place>, a: Action)
    requires Placed(s, place)
    ensures Placed(Step(s, a), NextPlace(s, place, a))
  {
    match a
    case Wake(_, _) | Load(_) | WakerNotify(_, _) => WakerKeepsPlaces(s, place, a);
    case Exchange(_) | WakerPush(_) | Spawn(_, _, _) => WakerMovesTask(s, place, a);
    case Lock(_) | Sleep(_) | Rouse(_) | NotifyOne(_, _) => WorkerKeepsPlaces(s, place, a);
    case NotifyAll(w) => NotifyAllKeepsPlaces(s, place, w);
    case Resume(_) | Suspend(_, _) | Requeue(_) | Finish(_) => WorkerKeepsTask(s, place, a);
    case Look(w) => LookKeepsPlaces(s, place, w);
    case TryPark(w) => ParkKeepsPlaces(s, place, w);
    case Count(_) | Push(_) => DepartureKeepsPlaces(s, place, a);
  }

  lemma LockUntouched(s: State, s': State)
    requires LockHeld(s) && s'.holder == s.holder && s'.workers.Keys == s.workers.Keys
    requires s.holder.Some? ==> s'.queue == s.queue
    requires forall w :: w in s.workers ==>
      (s'.workers[w].Locked? <==> s.workers[w].Locked?) && (s'.workers[w].SawLive? <==> s.workers[w].SawLive?)
    ensures LockHeld(s')
  {
  }

  lemma WorkersKeepLock(s: State, a: Action)
    requires LockHeld(s) && (a.Lock? || a.Sleep? || a.Look?)
    ensures LockHeld(Step(s, a))
  {
    if a.w in s.workers {
      match a
      case Lock(w) =>
      case Look(w) =>
      case Sleep(w) =>
    }
  }

  lemma OthersKeepLock1(s: State, a: Action)
    requires LockHeld(s)
    requires a.Rouse? || a.Resume? || a.Suspend? || a.Requeue? || a.TryPark? || a.Finish? || a.Count?
    ensures LockHeld(Step(s, a))
  {
    if a.w in s.workers {
      var s' := Step(s, a);
      assert forall w :: w in s.workers && w != a.w ==> s'.workers[w] == s.workers[w];
      LockUntouched(s, s');
    }
  }

  lemma OthersKeepLock2(s: State, a: Action)
    requires LockHeld(s) && (a.NotifyAll? || a.Push? || a.NotifyOne?)
    ensures LockHeld(Step(s, a))
  {
    if a.w in s.workers {
      LockUntouched(s, Step(s, a));
    }
  }

  lemma WakersKeepLock(s: State, a: Action)
    requires LockHeld(s) && !IsWorkerAction(a)
    ensures LockHeld(Step(s, a))
  {
    LockUntouched(s, Step(s, a));
  }

  lemma StepKeepsLock(s: State, a: Action)
    requires LockHeld(s)
    ensures LockHeld(Step(s, a))
  {
    match a
    case Lock(_) | Sleep(_) | Look(_) => WorkersKeepLock(s, a);
    case NotifyAll(_) | Push(_) | NotifyOne(_, _) => OthersKeepLock2(s, a);
    case Wake(_, _) | Load(_) | Exchange(_) | WakerPush(_) | WakerNotify(_, _) | Spawn(_, _, _) =>
      WakersKeepLock(s, a);
    case _ => OthersKeepLock1(s, a);
  }

  predicate Spawns(s: State, a: Action) {
    a.Spawn? && a.k !in s.wakers && a.task !in s.status && IsLive(s, a.spawner)
  }

  predicate Counts(s: State, a: Action) { a.Count? && a.w in s.workers && s.workers[a.w].Counting? }

  lemma WorkerLive(s: State, a: Action)
    requires IsWorkerAction(a)
    ensures Step(s, a).live == if Counts(s, a) then s.live - 1 else s.live
  {
  }

  lemma WakerLive(s: State, a: Action)
    requires !IsWorkerAction(a)
    ensures Step(s, a).live == if Spawns(s, a) then s.live + 1 else s.live
  {
  }

  lemma NextUnfinished(s: State, place: map<TaskId, Place>, a: Action)
    requires Placed(s, place)
    ensures Spawns(s, a) ==> a.task !in Unfinished(place)
    ensures Counts(s, a) ==> s.workers[a.w].task in Unfinished(place)
    ensures Unfinished(NextPlace(s, place, a)) ==
      if Spawns(s, a) then Unfinished(place) + {a.task}
      else if Counts(s, a) then Unfinished(place) - {s.workers[a.w].task}
      else Unfinished(place)
  {
    if a.Exchange? && a.k in s.wakers && s.wakers[a.k].SawParked? {
      assert IsAt(s, s.wakers[a.k].task, place[s.wakers[a.k].task]);
    }
  }

  /** The live count follows the tasks not yet counted as finished. */
  lemma StepKeepsCount(s: State, place: map<TaskId, Place>, a: Action)
    requires Placed(s, place) && s.live == |Unfinished(place)|
    ensures Step(s, a).live == |Unfinished(NextPlace(s, place, a))|
  {
    NextUnfinished(s, place, a);
    if IsWorkerAction(a) {
      WorkerLive(s, a);
    } else {
      WakerLive(s, a);
    }
  }

  // ── Nobody sleeps through work ───────────────────────────

  function Ones(b: bool): int { if b then 1 else 0 }

  lemma HuntersUpdate(workers: map<WorkerId, Worker>, w: WorkerId, here: Worker)
    requires w in workers
    ensures |Hunters(workers[w := here])| == |Hunters(workers)| - Ones(Hunts(workers[w])) + Ones(Hunts(here))
  {
    var after := Hunters(workers[w := here]);
    assert after == if Hunts(here) then Hunters(workers) + {w} else Hunters(workers) - {w};
  }

  lemma HeraldsUpdate(wakers: map<WakerId, Waker>, k: WakerId, here: Waker)
    ensures |Heralds(wakers[k := here])|
         == |Heralds(wakers)| - Ones(k in wakers && wakers[k].Notifying?) + Ones(here.Notifying?)
    ensures |Heralds(wakers - {k})| == |Heralds(wakers)| - Ones(k in wakers && wakers[k].Notifying?)
  {
    var after := Heralds(wakers[k := here]);
    assert after == if here.Notifying? then Heralds(wakers) + {k} else Heralds(wakers) - {k};
    assert Heralds(wakers - {k}) == Heralds(wakers) - {k};
  }

  lemma OneNotifiedHunters(s: State, sleeper: WorkerId)
    requires CanNotify(s, sleeper)
    ensures NoneAsleep(s) ==> Notified1(s, sleeper) == s
    ensures !NoneAsleep(s) ==> |Hunters(Notified1(s, sleeper).workers)| == |Hunters(s.workers)| + 1
  {
    if Sleeping(s, sleeper) {
      HuntersUpdate(s.workers, sleeper, Looking);
    }
  }

  lemma WakersKeepAttended(s: State, a: Action)
    requires Attended(s) && !IsWorkerAction(a) && !a.WakerNotify?
    ensures Attended(Step(s, a))
  {
    var s' := Step(s, a);
    assert s'.workers == s.workers;
    if s' != s {
      if a.k in s'.wakers {
        HeraldsUpdate(s.wakers, a.k, s'.wakers[a.k]);
        assert s'.wakers == s.wakers[a.k := s'.wakers[a.k]];
      } else {
        HeraldsUpdate(s.wakers, a.k, Notifying);
        assert s'.wakers == s.wakers - {a.k};
      }
    }
  }

  lemma NotifyKeepsAttended(s: State, k: WakerId, sleeper: WorkerId)
    requires Attended(s)
    ensures Attended(Step(s, WakerNotify(k, sleeper)))
  {
    if k in s.wakers && s.wakers[k].Notifying? && CanNotify(s, sleeper) {
      OneNotifiedHunters(s, sleeper);
      HeraldsUpdate(s.wakers, k, Notifying);
    }
  }

  lemma MovesKeepAttended(s: State, a: Action)
    requires Attended(s)
    requires a.Lock? || a.Rouse? || a.Resume? || a.Suspend? || a.Requeue? || a.TryPark? || a.Finish? || a.Count?
    ensures Attended(Step(s, a))
  {
    var s' := Step(s, a);
    if s' != s {
      assert s'.workers == s.workers[a.w := s'.workers[a.w]];
      HuntersUpdate(s.workers, a.w, s'.workers[a.w]);
    }
  }

  lemma QueueKeepsAttended(s: State, a: Action)
    requires Attended(s) && LockHeld(s) && (a.Look? || a.Sleep? || a.Push?)
    ensures Attended(Step(s, a))
  {
    var s' := Step(s, a);
    if s' != s {
      assert s'.workers == s.workers[a.w := s'.workers[a.w]];
      HuntersUpdate(s.workers, a.w, s'.workers[a.w]);
    }
  }

  lemma NotifiersKeepAttended(s: State, a: Action)
    requires Attended(s) && (a.NotifyAll? || a.NotifyOne?)
    ensures Attended(Step(s, a))
  {
    var s' := Step(s, a);
    if s' != s && a.NotifyOne? {
      var s1 := s.(workers := s.workers[a.w := Looking]);
      HuntersUpdate(s.workers, a.w, Looking);
      assert NoneAsleep(s1) <==> NoneAsleep(s);
      OneNotifiedHunters(s1, a.sleeper);
    }
  }

  lemma StepKeepsAttended(s: State, a: Action)
    requires Attended(s) && LockHeld(s)
    ensures Attended(Step(s, a))
  {
    match a
    case Lock(_) | Rouse(_) | Resume(_) | Suspend(_, _) | Requeue(_) | TryPark(_) | Finish(_) | Count(_) =>
      MovesKeepAttended(s, a);
    case Look(_) | Sleep(_) | Push(_) => QueueKeepsAttended(s, a);
    case NotifyAll(_) | NotifyOne(_, _) => NotifiersKeepAttended(s, a);
    case WakerNotify(k, sleeper) => NotifyKeepsAttended(s, k, sleeper);
    case Wake(_, _) | Load(_) | Exchange(_) | WakerPush(_) | Spawn(_, _, _) => WakersKeepAttended(s, a);
  }

  // ── The end of the run ───────────────────────────────────

  lemma HeldIsUnfinished(s: State, place: map<TaskId, Place>, w: WorkerId)
    requires Placed(s, place) && w in s.workers && HasTask(s.workers[w])
    ensures Unfinished(place) != {}
  {
    assert s.workers[w].task in Unfinished(place);
  }

  lemma MoveKeepsEnd(s: State, s': State, w: WorkerId, here: Worker)
    requires Drained(s) && ReturnedLast(s) && s'.live == s.live
    requires w in s.workers && s'.workers == s.workers[w := here]
    requires !s.workers[w].Last?
    requires here.Returned? || here.SawLive? ==> (here.Returned? <==> s.live == 0)
    requires here.Asleep? ==> s.workers[w].SawLive?
    ensures Drained(s') && ReturnedLast(s')
  {
    if v :| v in s.workers && s.workers[v].Last? {
      assert s'.workers[v].Last?;
    }
    if v :| v in s'.workers && s'.workers[v].Returned? && v != w {
      assert s.workers[v].Returned?;
    }
  }

  lemma MovesKeepEnd(s: State, a: Action)
    requires Drained(s) && ReturnedLast(s)
    requires a.Lock? || a.Rouse? || a.Resume? || a.Suspend? || a.Requeue? || a.TryPark? || a.Finish?
          || a.Look? || a.Sleep? || a.Push?
    ensures Drained(Step(s, a)) && ReturnedLast(Step(s, a))
  {
    var s' := Step(s, a);
    if s' != s {
      MoveKeepsEnd(s, s', a.w, s'.workers[a.w]);
    }
  }

  lemma NotifyAllKeepsEnd(s: State, w: WorkerId)
    requires Drained(s) && ReturnedLast(s) && LockHeld(s)
    ensures Drained(Step(s, NotifyAll(w))) && ReturnedLast(Step(s, NotifyAll(w)))
  {
    var s' := Step(s, NotifyAll(w));
    assert s' != s ==> forall v :: v in s'.workers ==> !s'.workers[v].Asleep? && !s'.workers[v].SawLive?;
    if v :| v in s'.workers && s'.workers[v].Returned? {
      assert s.workers[v].Returned?;
    }
  }

  lemma OneNotifiedKeepsEnd(s: State, sleeper: WorkerId)
    requires Drained(s) && ReturnedLast(s)
    ensures Drained(Notified1(s, sleeper)) && ReturnedLast(Notified1(s, sleeper))
  {
    if Sleeping(s, sleeper) {
      MoveKeepsEnd(s, Notified1(s, sleeper), sleeper, Looking);
    }
  }

  lemma NotifyOneKeepsEnd(s: State, w: WorkerId, sleeper: WorkerId)
    requires Drained(s) && ReturnedLast(s)
    ensures var s' := Step(s, NotifyOne(w, sleeper)); Drained(s') && ReturnedLast(s')
  {
    if w in s.workers && s.workers[w].Pushed? {
      var s1 := s.(workers := s.workers[w := Looking]);
      MoveKeepsEnd(s, s1, w, Looking);
      OneNotifiedKeepsEnd(s1, sleeper);
    }
  }

  lemma CountKeepsEnd(s: State, place: map<TaskId, Place>, w: WorkerId)
    requires Placed(s, place) && s.live == |Unfinished(place)| && Drained(s) && ReturnedLast(s)
    ensures var s' := Step(s, Count(w)); Drained(s') && ReturnedLast(s')
  {
    if w in s.workers && s.workers[w].Counting? {
      HeldIsUnfinished(s, place, w);
      var s' := Step(s, Count(w));
      assert s'.live == 0 ==> s'.workers[w].Last?;
    }
  }

  lemma WakersKeepEnd(s: State, place: map<TaskId, Place>, a: Action)
    requires Placed(s, place) && s.live == |Unfinished(place)| && Drained(s) && ReturnedLast(s)
    requires !IsWorkerAction(a)
    ensures Drained(Step(s, a)) && ReturnedLast(Step(s, a))
  {
    WakerLive(s, a);
    if Spawns(s, a) {
      assert a.spawner in Unfinished(place);
    } else if a.WakerNotify? {
      OneNotifiedKeepsEnd(s, a.sleeper);
    }
  }

  lemma StepKeepsEnd(s: State, place: map<TaskId, Place>, a: Action)
    requires Inv(s, place)
    ensures Drained(Step(s, a)) && ReturnedLast(Step(s, a))
  {
    match a
    case NotifyAll(w) => NotifyAllKeepsEnd(s, w);
    case NotifyOne(w, sleeper) => NotifyOneKeepsEnd(s, w, sleeper);
    case Count(w) => CountKeepsEnd(s, place, w);
    case Wake(_, _) | Load(_) | Exchange(_) | WakerPush(_) | WakerNotify(_, _) | Spawn(_, _, _) =>
      WakersKeepEnd(s, place, a);
    case _ => MovesKeepEnd(s, a);
  }

  lemma StepKeepsInv(s: State, place: map<TaskId, Place>, a: Action)
    requires Inv(s, place)
    ensures Inv(Step(s, a), NextPlace(s, place, a))
  {
    StepKeepsPlaces(s, place, a);
    StepKeepsLock(s, a);
    StepKeepsCount(s, place, a);
    StepKeepsAttended(s, a);
    StepKeepsEnd(s, place, a);
  }

  lemma StartInv(workers: set<WorkerId>)
    requires workers != {}
    ensures Inv(Start(workers), map[0 := InQueue])
  {
    var s := Start(workers);
    assert Unfinished(map[0 := InQueue]) == {0};
    assert Hunters(s.workers) == workers;
  }

  /** The states of all interleavings of all runs. */
  lemma {:induction false} PlayKeepsInv(s: State, place: map<TaskId, Place>, actions: seq<Action>)
    returns (end: map<TaskId, Place>)
    requires Inv(s, place)
    ensures Inv(Play(s, actions), end)
    decreases |actions|
  {
    if actions == [] {
      end := place;
    } else {
      StepKeepsInv(s, place, actions[0]);
      end := PlayKeepsInv(Step(s, actions[0]), NextPlace(s, place, actions[0]), actions[1..]);
    }
  }

  // ── What every run guarantees ────────────────────────────

  /** What can hold a task. */
  datatype Holder = Entry(index: nat) | Executor(w: WorkerId) | Pusher(k: WakerId)

  /** `h` holds task `t`: an entry of the queue, a worker, or a waker about to push it. */
  predicate Holds(s: State, h: Holder, t: TaskId) {
    match h
    case Entry(i) => i < |s.queue| && s.queue[i] == t
    case Executor(w) => w in s.workers && HasTask(s.workers[w]) && !s.workers[w].Counting? && s.workers[w].task == t
    case Pusher(k) => k in s.wakers && s.wakers[k] == Queueing(t)
  }

  /** `h` runs `t`: between the resumption and the state stored after its suspension. */
  predicate Executes(s: State, h: Holder, t: TaskId) {
    h.Executor? && Holds(s, h, t) && !s.workers[h.w].Popped? && !s.workers[h.w].Pushing?
  }

  /** A task has at most one holder, whatever runs and wakes it; the holder is one that executes
      it exactly when the task is running or notified, one bringing it to a worker exactly when
      it is queued, and there is none exactly when it is parked or done. */
  lemma SingleHolder(workers: set<WorkerId>, actions: seq<Action>, t: TaskId)
    requires workers != {} && t in Play(Start(workers), actions).status
    ensures var s := Play(Start(workers), actions);
      && (forall h1, h2 :: Holds(s, h1, t) && Holds(s, h2, t) ==> h1 == h2)
      && (s.status[t].Queued? <==> exists h :: Holds(s, h, t) && !Executes(s, h, t))
      && (s.status[t].Running? || s.status[t].Notified? <==> exists h :: Executes(s, h, t))
      && (s.status[t].Parked? || s.status[t].Done? <==> forall h :: !Holds(s, h, t))
  {
    StartInv(workers);
    var place := PlayKeepsInv(Start(workers), map[0 := InQueue], actions);
    PlacedHolder(Play(Start(workers), actions), place, t);
  }

  /** The holder `p` stands for, if any. */
  ghost predicate Stands(s: State, p: Place, h: Holder) {
    match p
    case InQueue => h.Entry?
    case OnWorker(w) => h == Executor(w) && w in s.workers && !s.workers[w].Counting?
    case OnWaker(k) => h == Pusher(k)
    case _ => false
  }

  lemma PlacedHolder(s: State, place: map<TaskId, Place>, t: TaskId)
    requires Placed(s, place) && t in s.status
    ensures forall h1, h2 :: Holds(s, h1, t) && Holds(s, h2, t) ==> h1 == h2
    ensures s.status[t].Queued? <==> exists h :: Holds(s, h, t) && !Executes(s, h, t)
    ensures s.status[t].Running? || s.status[t].Notified? <==> exists h :: Executes(s, h, t)
    ensures s.status[t].Parked? || s.status[t].Done? <==> forall h :: !Holds(s, h, t)
  {
    var p := place[t];
    assert IsAt(s, t, p);
    forall h | Holds(s, h, t) ensures Stands(s, p, h) {
    }
    match p
    case InQueue =>
      var i :| 0 <= i < |s.queue| && s.queue[i] == t;
      assert Holds(s, Entry(i), t);
    case OnWorker(w) =>
      assert !s.workers[w].Counting? ==> Holds(s, Executor(w), t);
    case OnWaker(k) =>
      assert Holds(s, Pusher(k), t);
    case _ =>
  }

  /** A worker returns only when nothing is left to run: the queue is empty, nobody is about to
      push a task, and every task of the run is done and counted. */
  lemma ReturnsWhenDone(workers: set<WorkerId>, actions: seq<Action>, w: WorkerId)
    requires workers != {}
    requires var s := Play(Start(workers), actions); w in s.workers && s.workers[w].Returned?
    ensures var s := Play(Start(workers), actions);
      && s.live == 0 && s.queue == []
      && (forall t :: t in s.status ==> s.status[t].Done?)
      && (forall h, t :: !Holds(s, h, t))
  {
    StartInv(workers);
    var place := PlayKeepsInv(Start(workers), map[0 := InQueue], actions);
    var s := Play(Start(workers), actions);
    assert Unfinished(place) == {};
    forall t | t in s.status ensures s.status[t].Done? {
      assert IsAt(s, t, place[t]) && t !in Unfinished(place);
    }
    forall h, t ensures !Holds(s, h, t) {
      if Holds(s, h, t) {
        assert t in s.status && IsAt(s, t, place[t]);
        PlacedHolder(s, place, t);
      }
    }
    if s.queue != [] {
      assert Holds(s, Entry(0), s.queue[0]);
    }
  }

  /** While a worker sleeps, each queued task has its own worker or notification on its way; once
      the live count is zero, a sleeping worker has a notification on its way. */
  lemma NoLostNotification(workers: set<WorkerId>, actions: seq<Action>, w: WorkerId)
    requires workers != {}
    requires Sleeping(Play(Start(workers), actions), w)
    ensures var s := Play(Start(workers), actions);
      && |s.queue| <= |Hunters(s.workers)| + |Heralds(s.wakers)|
      && (s.live == 0 ==> exists v :: v in s.workers && s.workers[v].Last?)
  {
    StartInv(workers);
    var place := PlayKeepsInv(Start(workers), map[0 := InQueue], actions);
  }

  /** The transitions of a task, by who makes them. */
  predicate Allowed(from: Status, to: Status, a: Action) {
    match from
    case Queued => to.Running? && a.Resume?
    case Running => (to.Notified? && a.Exchange?) || (to.Parked? && a.TryPark?) || (to.Queued? && a.Requeue?)
                    || (to.Done? && a.Finish?)
    case Notified => (to.Queued? && a.Requeue?) || (to.Done? && a.Finish?)
    case Parked => to.Queued? && a.Exchange?
    case Done => false
  }

  /** Every step of every run moves a task along the automaton only: in particular a wake that
      found its task running is never lost, since a notified task is queued before it can park. */
  lemma TaskAutomaton(workers: set<WorkerId>, actions: seq<Action>, a: Action, t: TaskId)
    requires workers != {} && t in Play(Start(workers), actions).status
    ensures var s := Play(Start(workers), actions); var s' := Step(s, a);
      t in s'.status && (s'.status[t] == s.status[t] || Allowed(s.status[t], s'.status[t], a))
  {
    StartInv(workers);
    var place := PlayKeepsInv(Start(workers), map[0 := InQueue], actions);
    if IsWorkerAction(a) {
      WorkerTransition(Play(Start(workers), actions), place, a, t);
    } else {
      WakerTransition(Play(Start(workers), actions), a, t);
    }
  }

  lemma WorkerTransition(s: State, place: map<TaskId, Place>, a: Action, t: TaskId)
    requires Placed(s, place) && t in s.status && IsWorkerAction(a)
    ensures var s' := Step(s, a);
      t in s'.status && (s'.status[t] == s.status[t] || Allowed(s.status[t], s'.status[t], a))
  {
    if a.w in s.workers && HasTask(s.workers[a.w]) {
      var u := s.workers[a.w].task;
      assert place[u] == OnWorker(a.w) && IsAt(s, u, place[u]);
    }
  }

  lemma WakerTransition(s: State, a: Action, t: TaskId)
    requires t in s.status && !IsWorkerAction(a)
    ensures var s' := Step(s, a);
      t in s'.status && (s'.status[t] == s.status[t] || Allowed(s.status[t], s'.status[t], a))
  {
  }

  /** A call to `wake` ends, or goes on to push its task, only once its task is queued, notified
      or done; until then it tries again. */
  lemma WakeTakesEffect(s: State, k: WakerId, a: Action)
    requires k in s.wakers && !s.wakers[k].Queueing? && !s.wakers[k].Notifying? && s.wakers[k].task in s.status
    ensures var s', t := Step(s, a), s.wakers[k].task;
      || (k in s'.wakers && !s'.wakers[k].Queueing? && !s'.wakers[k].Notifying? && s'.wakers[k].task == t)
      || (t in s'.status && (s'.status[t].Queued? || s'.status[t].Notified? || s'.status[t].Done?))
  {
  }

  // ── The order of the queue ───────────────────────────────

  /** The task a step queues: that of a worker or of a waker that was about to push it, and is not
      any more. */
  function Pushes(s: State, a: Action): seq<TaskId> {
    if a.Push? && a.w in s.workers && s.workers[a.w].Pushing? && Step(s, a).workers[a.w] != s.workers[a.w] then
      [s.workers[a.w].task]
    else if a.WakerPush? && a.k in s.wakers && s.wakers[a.k].Queueing? && Step(s, a).wakers[a.k] != s.wakers[a.k] then
      [s.wakers[a.k].task]
    else []
  }

  /** The task a step takes: that of a worker which had none. */
  function Pops(s: State, a: Action): seq<TaskId> {
    if a.Look? && a.w in s.workers && !HasTask(s.workers[a.w]) && HasTask(Step(s, a).workers[a.w]) then
      [Step(s, a).workers[a.w].task]
    else []
  }

  /** The tasks queued in a run, by whoever queues them, in order. */
  function AllPushed(s: State, actions: seq<Action>): seq<TaskId>
    decreases |actions|
  {
    if actions == [] then [] else Pushes(s, actions[0]) + AllPushed(Step(s, actions[0]), actions[1..])
  }

  /** The tasks taken in a run, by whichever worker, in order. */
  function AllPopped(s: State, actions: seq<Action>): seq<TaskId>
    decreases |actions|
  {
    if actions == [] then [] else Pops(s, actions[0]) + AllPopped(Step(s, actions[0]), actions[1..])
  }

  lemma StepInOrder(s: State, a: Action)
    ensures s.queue + Pushes(s, a) == Pops(s, a) + Step(s, a).queue
  {
    if a.Look? && s.queue != [] {
      assert s.queue == [s.queue[0]] + s.queue[1..];
    }
  }

  /** First come, first served: those queued in a run, behind those that were, are those taken and,
      after them, those left. */
  lemma {:induction false} TakenInOrder(s: State, actions: seq<Action>)
    ensures s.queue + AllPushed(s, actions) == AllPopped(s, actions) + Play(s, actions).queue
    decreases |actions|
  {
    if actions != [] {
      hide Step, Pushes, Pops;
      var a := actions[0];
      var s' := Step(s, a);
      StepInOrder(s, a);
      TakenInOrder(s', actions[1..]);
      Rejoined(s.queue, Pushes(s, a), Pops(s, a), s'.queue, AllPushed(s', actions[1..]), AllPopped(s', actions[1..]),
               Play(s, actions).queue);
    }
  }

  lemma Rejoined<T>(q: seq<T>, pushed: seq<T>, popped: seq<T>, q': seq<T>, morePushed: seq<T>, morePopped: seq<T>,
                    end: seq<T>)
    requires q + pushed == popped + q' && q' + morePushed == morePopped + end
    ensures q + (pushed + morePushed) == (popped + morePopped) + end
  {
    assert q + (pushed + morePushed) == (q + pushed) + morePushed == popped + (q' + morePushed);
  }

  /** Nobody overtakes: whatever is queued meanwhile, a task with `n` before it in the queue is
      among the first `n + 1` taken, at its place. */
  lemma NobodyOvertakes(s: State, n: nat, more: seq<Action>)
    requires n < |s.queue|
    ensures n < |AllPopped(s, more)| ==> AllPopped(s, more)[n] == s.queue[n]
    ensures n >= |AllPopped(s, more)| ==>
      var left := n - |AllPopped(s, more)|; left < |Play(s, more).queue| && Play(s, more).queue[left] == s.queue[n]
  {
    TakenInOrder(s, more);
    var all := s.queue + AllPushed(s, more);
    assert all[n] == s.queue[n];
  }

  // ── What a turn does ─────────────────────────────────────

  lemma PlayFirst(s: State, a: Action, rest: seq<Action>)
    ensures Play(s, [a] + rest) == Play(Step(s, a), rest)
  {
    assert ([a] + rest)[1..] == rest;
  }

  /** A worker takes the first task and runs it until it is suspended. */
  function Run(w: WorkerId, how: Suspension): seq<Action> { [Lock(w), Look(w), Resume(w), Suspend(w, how)] }

  lemma RunsFirst(s: State, w: WorkerId, how: Suspension, rest: seq<Action>)
    requires w in s.workers && s.workers[w].Looking? && s.holder.None? && s.queue != []
    ensures Play(s, Run(w, how) + rest) ==
      Play(s.(queue := s.queue[1..], status := s.status[s.queue[0] := Running], workers := s.workers[w :=
             match how
             case Yields => Yielded(s.queue[0])
             case Parks => Parking(s.queue[0])
             case Ends => Ended(s.queue[0])]), rest)
  {
    var actions := Run(w, how);
    assert actions + rest == [actions[0]] + ([actions[1]] + ([actions[2]] + ([actions[3]] + rest)));
    PlayFirst(s, actions[0], [actions[1]] + ([actions[2]] + ([actions[3]] + rest)));
    var s1 := Step(s, actions[0]);
    PlayFirst(s1, actions[1], [actions[2]] + ([actions[3]] + rest));
    var s2 := Step(s1, actions[1]);
    PlayFirst(s2, actions[2], [actions[3]] + rest);
    var s3 := Step(s2, actions[2]);
    PlayFirst(s3, actions[3], rest);
    assert Step(s3, actions[3]).workers == s.workers[w := Step(s3, actions[3]).workers[w]];
  }

  lemma PlayTwo(s: State, a: Action, b: Action)
    ensures Play(s, [a, b]) == Step(Step(s, a), b)
  {
    assert [a, b] == [a] + [b];
    PlayFirst(s, a, [b]);
    PlayFirst(Step(s, a), b, []);
  }

  lemma PlayThree(s: State, a: Action, b: Action, c: Action)
    ensures Play(s, [a, b, c]) == Step(Step(Step(s, a), b), c)
  {
    assert [a, b, c] == [a] + [b, c];
    PlayFirst(s, a, [b, c]);
    PlayTwo(Step(s, a), b, c);
  }

  /** The first task, taken by `w`, is running. */
  function Left(s: State, w: WorkerId, here: Worker): State
    requires s.queue != []
  {
    s.(queue := s.queue[1..], status := s.status[s.queue[0] := Running], workers := s.workers[w := here])
  }

  /** A task that yields is queued behind all others. */
  lemma TurnOfYielding(s: State, w: WorkerId)
    requires w in s.workers && s.workers[w].Looking? && s.holder.None? && s.queue != []
    ensures var end := Play(s, Run(w, Yields) + [Requeue(w), Push(w)]);
      end.queue == s.queue[1..] + [s.queue[0]] && end.status == s.status[s.queue[0] := Queued] && end.live == s.live
  {
    hide Play, Run;
    RunsFirst(s, w, Yields, [Requeue(w), Push(w)]);
    PlayTwo(Left(s, w, Yielded(s.queue[0])), Requeue(w), Push(w));
  }

  /** One that parks is out of the queue, and its worker looks for another. */
  lemma TurnOfParking(s: State, w: WorkerId)
    requires w in s.workers && s.workers[w].Looking? && s.holder.None? && s.queue != []
    ensures Play(s, Run(w, Parks) + [TryPark(w)]) ==
      s.(queue := s.queue[1..], status := s.status[s.queue[0] := Parked])
  {
    hide Run;
    RunsFirst(s, w, Parks, [TryPark(w)]);
    var left := Left(s, w, Parking(s.queue[0]));
    assert [TryPark(w)] == [TryPark(w)] + [];
    PlayFirst(left, TryPark(w), []);
    assert s.workers[w := Looking] == s.workers;
  }

  /** One that ends is done, and no longer counted as live. */
  lemma TurnOfEnding(s: State, w: WorkerId)
    requires w in s.workers && s.workers[w].Looking? && s.holder.None? && s.queue != []
    ensures var end := Play(s, Run(w, Ends) + [Finish(w), Count(w)]);
      end.queue == s.queue[1..] && end.status == s.status[s.queue[0] := Done] && end.live == s.live - 1
  {
    hide Play, Run;
    RunsFirst(s, w, Ends, [Finish(w), Count(w)]);
    PlayTwo(Left(s, w, Ended(s.queue[0])), Finish(w), Count(w));
  }

  /** A task woken before it could park is queued behind all others. */
  lemma WokenBeforeParking(s: State, w: WorkerId)
    requires w in s.workers && s.workers[w].Parking? && s.holder.None?
    requires var t := s.workers[w].task; t in s.status && s.status[t].Notified?
    ensures var end, t := Play(s, [TryPark(w), Requeue(w), Push(w)]), s.workers[w].task;
      end.queue == s.queue + [t] && end.status == s.status[t := Queued]
  {
    hide Play;
    PlayThree(s, TryPark(w), Requeue(w), Push(w));
    var t := s.workers[w].task;
    assert Step(s, TryPark(w)) == s.(workers := s.workers[w := Renotified(t)]);
    assert Step(s.(workers := s.workers[w := Renotified(t)]), Requeue(w)) ==
      s.(status := s.status[t := Queued], workers := s.workers[w := Pushing(t)]);
  }

  lemma WakeLooks(s: State, k: WakerId, t: TaskId)
    requires k !in s.wakers && t in s.status
    ensures Step(Step(s, Wake(k, t)), Load(k)) ==
      match s.status[t]
      case Parked => s.(wakers := s.wakers[k := SawParked(t)])
      case Running => s.(wakers := s.wakers[k := SawRunning(t)])
      case _ => s
  {
    var s1 := Step(s, Wake(k, t));
    assert s1 == s.(wakers := s.wakers[k := Loading(t)]);
    assert s1.wakers - {k} == s.wakers;
  }

  /** An undisturbed call to `wake` queues a parked task behind all others. */
  lemma WakeQueues(s: State, k: WakerId, t: TaskId)
    requires k !in s.wakers && t in s.status && s.status[t].Parked? && s.holder.None?
    ensures var end := Step(Play(s, [Wake(k, t), Load(k), Exchange(k)]), WakerPush(k));
      end.queue == s.queue + [t] && end.status == s.status[t := Queued] && end.wakers == s.wakers[k := Notifying]
  {
    hide Play;
    PlayThree(s, Wake(k, t), Load(k), Exchange(k));
    WakeLooks(s, k, t);
    var s2 := s.(wakers := s.wakers[k := SawParked(t)]);
    assert Step(s2, Exchange(k)) == s.(status := s.status[t := Queued], wakers := s.wakers[k := Queueing(t)]);
  }

  /** It leaves a mark on a running one, and on others does nothing. */
  lemma WakeMarks(s: State, k: WakerId, t: TaskId)
    requires k !in s.wakers && t in s.status && !s.status[t].Parked?
    ensures Play(s, [Wake(k, t), Load(k), Exchange(k)]) ==
      if s.status[t].Running? then s.(status := s.status[t := Notified]) else s
  {
    hide Play;
    PlayThree(s, Wake(k, t), Load(k), Exchange(k));
    WakeLooks(s, k, t);
    assert s.wakers[k := SawRunning(t)] - {k} == s.wakers;
  }

  // ── Nobody is stuck ──────────────────────────────────────

  /** The action a worker is up to; `sleeper` is whom it notifies. */
  function Own(here: Worker, w: WorkerId, sleeper: WorkerId): Action {
    match here
    case Looking | Returned => Lock(w)
    case Locked => Look(w)
    case SawLive => Sleep(w)
    case Asleep => Rouse(w)
    case Popped(_) => Resume(w)
    case Resumed(_) => Suspend(w, Ends)
    case Yielded(_) | Renotified(_) => Requeue(w)
    case Parking(_) => TryPark(w)
    case Ended(_) => Finish(w)
    case Counting(_) => Count(w)
    case Last => NotifyAll(w)
    case Pushing(_) => Push(w)
    case Pushed => NotifyOne(w, sleeper)
  }

  lemma OwnChanges(s: State, place: map<TaskId, Place>, w: WorkerId, sleeper: WorkerId)
    requires Placed(s, place) && LockHeld(s) && w in s.workers && !s.workers[w].Returned?
    requires (s.holder.None? || s.holder == Some(w)) && CanNotify(s, sleeper)
    ensures Step(s, Own(s.workers[w], w, sleeper)).workers[w] != s.workers[w]
  {
    if s.workers[w].Parking? {
      assert place[s.workers[w].task] == OnWorker(w);
    }
  }

  lemma SomeSleeper(s: State) returns (sleeper: WorkerId)
    ensures CanNotify(s, sleeper)
  {
    sleeper := 0;
    if !NoneAsleep(s) {
      sleeper :| sleeper in s.workers && s.workers[sleeper].Asleep?;
    }
  }

  /** Whatever the run, a worker that has not returned goes on by a step of its own, unless another
      one holds the lock. */
  lemma WorkersGoOn(workers: set<WorkerId>, actions: seq<Action>, w: WorkerId) returns (a: Action)
    requires workers != {}
    requires var s := Play(Start(workers), actions);
      w in s.workers && !s.workers[w].Returned? && (s.holder.None? || s.holder == Some(w))
    ensures var s := Play(Start(workers), actions);
      IsWorkerAction(a) && a.w == w && Step(s, a).workers[w] != s.workers[w]
  {
    hide Placed, LockHeld, Attended, Drained, ReturnedLast, Play, CanNotify, Step;
    var s := Play(Start(workers), actions);
    StartInv(workers);
    var place := PlayKeepsInv(Start(workers), map[0 := InQueue], actions);
    var sleeper := SomeSleeper(s);
    OwnChanges(s, place, w, sleeper);
    a := Own(s.workers[w], w, sleeper);
  }

  /** So does whoever wakes a task, unless a worker holds the lock. */
  lemma WakersGoOn(workers: set<WorkerId>, actions: seq<Action>, k: WakerId) returns (a: Action)
    requires workers != {}
    requires var s := Play(Start(workers), actions); k in s.wakers && s.holder.None?
    ensures var s := Play(Start(workers), actions);
      && !IsWorkerAction(a) && a.k == k
      && (k in Step(s, a).wakers ==> Step(s, a).wakers[k] != s.wakers[k])
  {
    hide LockHeld, Attended, Drained, ReturnedLast, Play;
    var s := Play(Start(workers), actions);
    StartInv(workers);
    var place := PlayKeepsInv(Start(workers), map[0 := InQueue], actions);
    var sleeper := SomeSleeper(s);
    a := match s.wakers[k]
      case Loading(_) => Load(k)
      case SawParked(_) | SawRunning(_) => Exchange(k)
      case Queueing(_) => WakerPush(k)
      case Notifying => WakerNotify(k, sleeper);
  }
}
