/** The green mutex: attempts to lock park with a ticket, and an unlock wakes the first of them,
    which has to compete again. Wake-ups may be spurious, and a newcomer may barge in. */
module GreenMutex {
  import opened Wrappers
  import opened Parking

  /** What a task is doing with the mutex. */
  datatype Stage =
    | Outside
    | Trying(again: bool)       // about to look at the lock, for the first time or after a wake
    | Leaving(ticket: nat)      // queued, about to park
    | Suspended(ticket: nat)    // parked, or woken and waiting for a worker
    | Woken(ticket: nat)        // running again, about to withdraw its ticket
    | Holding
    | Waking(target: Task)      // unlocking: popped a waiter, about to wake it

  /** `latch`: the task inside a section of the inner OS lock that takes several steps. */
  datatype State = State(
    locked: bool,
    waiters: seq<Waiter>,
    nextTicket: nat,
    latch: Option<Task>,
    stage: map<Task, Stage>,
    status: map<Task, Status>)

  datatype Action =
    | Attempt(t: Task)
    | TryLock(t: Task)
    | GoPark(t: Task)
    | Resume(t: Task)
    | Withdraw(t: Task)
    | Unlock(t: Task)
    | WakeTarget(t: Task)
    | Spurious(t: Task)       // a wake meant for something else
    | Consume(t: Task)        // a yield elsewhere loses a notification

  /** One step; an action that is not possible changes nothing. */
  function Step(s: State, a: Action): State {
    var t := a.t;
    if t !in s.stage || t !in s.status then s
    else
      var here := s.stage[t];
      match a
      case Attempt(_) => if here.Outside? then s.(stage := s.stage[t := Trying(false)]) else s
      case TryLock(_) =>
        if !here.Trying? || s.latch.Some? then s
        else if !s.locked then s.(locked := true, stage := s.stage[t := Holding])
        else s.(waiters := s.waiters + [Waiter(s.nextTicket, t)], nextTicket := s.nextTicket + 1,
                stage := s.stage[t := Leaving(s.nextTicket)])
      case GoPark(_) =>
        if !here.Leaving? then s
        else s.(stage := s.stage[t := Suspended(here.ticket)], status := s.status[t := Park(s.status[t])])
      case Resume(_) =>
        if !here.Suspended? || !s.status[t].Queued? then s
        else s.(stage := s.stage[t := Woken(here.ticket)], status := s.status[t := Running])
      case Withdraw(_) =>
        if !here.Woken? || s.latch.Some? then s
        else s.(waiters := Without(s.waiters, here.ticket), stage := s.stage[t := Trying(true)])
      case Unlock(_) =>
        if !here.Holding? || s.latch.Some? then s
        else if s.waiters == [] then s.(locked := false, stage := s.stage[t := Outside])
        else s.(locked := false, waiters := s.waiters[1..], latch := Some(t),
                stage := s.stage[t := Waking(s.waiters[0].task)])
      case WakeTarget(_) =>
        if !here.Waking? || here.target !in s.status then s
        else s.(latch := None, stage := s.stage[t := Outside],
                status := s.status[here.target := Wake(s.status[here.target])])
      case Spurious(_) => s.(status := s.status[t := Wake(s.status[t])])
      case Consume(_) =>
        if (here.Outside? || here.Holding?) && s.status[t].Notified? then s.(status := s.status[t := Running]) else s
  }

  function Start(tasks: set<Task>): State {
    State(false, [], 0, None, map t | t in tasks :: Outside, map t | t in tasks :: Running)
  }

  function Play(s: State, actions: seq<Action>): State
    decreases |actions|
  {
    if actions == [] then s else Play(Step(s, actions[0]), actions[1..])
  }

  // ── Invariants ───────────────────────────────────────────

  predicate HasTicket(here: Stage) { here.Leaving? || here.Suspended? || here.Woken? }

  /** `t` has a ticket, still in the queue. */
  predicate Waits(s: State, t: Task) {
    t in s.stage && HasTicket(s.stage[t]) && Waiter(s.stage[t].ticket, t) in s.waiters
  }

  /** The ticket of `t` was removed, and it is trying again or will. */
  predicate Coming(s: State, t: Task) {
    t in s.stage && (s.stage[t] == Trying(true) || (HasTicket(s.stage[t]) && !Waits(s, t)))
  }

  predicate BeingWoken(s: State, t: Task) {
    s.latch.Some? && s.latch.value in s.stage && s.stage[s.latch.value] == Waking(t)
  }

  predicate IsRunning(status: Status) { status.Running? || status.Notified? }

  ghost predicate Typed(s: State) {
    && s.stage.Keys == s.status.Keys
    && (forall t :: t in s.stage ==> (s.stage[t].Suspended? <==> !IsRunning(s.status[t])))
    && (forall t :: t in s.stage ==> (s.stage[t].Waking? <==> s.latch == Some(t)))
    && (s.latch.Some? ==> s.latch.value in s.stage)
    && (forall t :: t in s.stage && s.stage[t].Waking? ==> s.stage[t].target in s.stage)
  }

  predicate Owned(stage: map<Task, Stage>, w: Waiter) {
    w.task in stage && HasTicket(stage[w.task]) && stage[w.task].ticket == w.ticket
  }

  /** Each queued ticket is that of a task that has it, once. */
  ghost predicate Entries(s: State) {
    Distinct(s.waiters) && forall w :: w in s.waiters ==> Owned(s.stage, w)
  }

  /** `issued` tells whom each ticket was given to. */
  ghost predicate Issued(s: State, issued: map<nat, Task>) {
    && (forall n :: n in issued ==> n < s.nextTicket)
    && (forall t :: t in s.stage && HasTicket(s.stage[t]) ==>
         s.stage[t].ticket in issued && issued[s.stage[t].ticket] == t)
  }

  ghost predicate Exclusive(s: State, owner: Option<Task>) {
    && s.locked == owner.Some?
    && (forall t :: t in s.stage ==> (s.stage[t].Holding? <==> owner == Some(t)))
    && (owner.Some? ==> owner.value in s.stage)
  }

  /** A task whose ticket was removed is not left parked: its wake is delivered or under way. */
  ghost predicate Delivered(s: State) {
    forall t :: t in s.stage && (s.stage[t].Leaving? || s.stage[t].Suspended?) && !Waits(s, t) ==>
      BeingWoken(s, t) || (t in s.status && (s.status[t].Notified? || s.status[t].Queued?))
  }

  ghost predicate Attended(s: State) {
    !s.locked && s.waiters != [] ==> exists t :: Coming(s, t)
  }

  ghost predicate Inv(s: State, owner: Option<Task>, issued: map<nat, Task>) {
    Typed(s) && Entries(s) && Issued(s, issued) && Exclusive(s, owner) && Delivered(s) && Attended(s)
  }

  function NextOwner(s: State, owner: Option<Task>, a: Action): Option<Task> {
    var s' := Step(s, a);
    if s'.locked && !s.locked then Some(a.t) else if !s'.locked then None else owner
  }

  function NextIssued(s: State, issued: map<nat, Task>, a: Action): map<nat, Task> {
    if a.TryLock? && Step(s, a).nextTicket > s.nextTicket then issued[s.nextTicket := a.t] else issued
  }

  // ── Each step, invariant by invariant ────────────────────

  lemma StepKeepsExclusive(s: State, owner: Option<Task>, a: Action)
    requires Typed(s) && Exclusive(s, owner)
    ensures Exclusive(Step(s, a), NextOwner(s, owner, a))
  {
  }

  lemma StageKeepsTyped(s: State, a: Action)
    requires Typed(s) && (a.Attempt? || a.TryLock? || a.Withdraw? || a.GoPark? || a.Resume?)
    ensures Typed(Step(s, a))
  {
  }

  lemma UnlockKeepsTyped(s: State, t: Task)
    requires Typed(s) && Entries(s)
    ensures Typed(Step(s, Unlock(t)))
  {
    assert s.waiters != [] ==> Owned(s.stage, s.waiters[0]);
  }

  lemma WakeKeepsTyped(s: State, a: Action)
    requires Typed(s) && (a.WakeTarget? || a.Spurious? || a.Consume?)
    ensures Typed(Step(s, a))
  {
  }

  lemma StepKeepsIssued(s: State, issued: map<nat, Task>, a: Action)
    requires Issued(s, issued)
    ensures Issued(Step(s, a), NextIssued(s, issued, a))
  {
  }

  lemma MovesKeepEntries(s: State, a: Action)
    requires Entries(s) && Typed(s)
    requires a.Attempt? || a.GoPark? || a.Resume? || a.WakeTarget? || a.Spurious? || a.Consume?
    ensures Entries(Step(s, a))
    ensures forall t :: Waits(Step(s, a), t) == Waits(s, t)
  {
    var s' := Step(s, a);
    forall w | w in s'.waiters ensures Owned(s'.stage, w) {
      assert Owned(s.stage, w);
    }
    assert forall t :: Waits(s', t) == Waits(s, t);
  }

  lemma TryLockKeepsEntries(s: State, issued: map<nat, Task>, t: Task)
    requires Entries(s) && Issued(s, issued)
    ensures Entries(Step(s, TryLock(t)))
    ensures forall u :: u != t ==> Waits(Step(s, TryLock(t)), u) == Waits(s, u)
  {
    var s' := Step(s, TryLock(t));
    if s' != s {
      forall w | w in s'.waiters ensures Owned(s'.stage, w) {
        assert w in s.waiters ==> Owned(s.stage, w);
      }
      assert Waiter(s.nextTicket, t) !in s.waiters;
      assert forall u :: u != t ==> Waits(s', u) == Waits(s, u);
    }
  }

  lemma WithdrawKeepsEntries(s: State, issued: map<nat, Task>, t: Task)
    requires Entries(s) && Issued(s, issued)
    ensures Entries(Step(s, Withdraw(t)))
    ensures forall u :: u != t ==> Waits(Step(s, Withdraw(t)), u) == Waits(s, u)
  {
    var s' := Step(s, Withdraw(t));
    if s' != s {
      WithoutMembers(s.waiters, s.stage[t].ticket);
      forall w | w in s'.waiters ensures Owned(s'.stage, w) {
        assert Owned(s.stage, w);
      }
      assert forall u :: u != t ==> Waits(s', u) == Waits(s, u);
    }
  }

  lemma UnlockKeepsEntries(s: State, t: Task)
    requires Entries(s)
    ensures Entries(Step(s, Unlock(t)))
    ensures forall u :: (s.waiters == [] || u != s.waiters[0].task) ==> Waits(Step(s, Unlock(t)), u) == Waits(s, u)
    ensures s.waiters != [] && Step(s, Unlock(t)) != s ==> Coming(Step(s, Unlock(t)), s.waiters[0].task)
  {
    var s' := Step(s, Unlock(t));
    if s' != s {
      forall w | w in s'.waiters ensures Owned(s'.stage, w) {
        assert Owned(s.stage, w);
      }
      if s.waiters != [] {
        assert Owned(s.stage, s.waiters[0]);
        assert s.waiters[0] !in s'.waiters;
      }
      assert forall u :: (s.waiters == [] || u != s.waiters[0].task) ==> Waits(s', u) == Waits(s, u);
    }
  }

  lemma MovesKeepAttended(s: State, a: Action)
    requires Attended(s)
    requires a.Attempt? || a.GoPark? || a.Resume? || a.WakeTarget? || a.Spurious? || a.Consume?
    requires forall t :: Waits(Step(s, a), t) == Waits(s, t)
    ensures Attended(Step(s, a))
  {
    var s' := Step(s, a);
    if t :| Coming(s, t) {
      assert Coming(s', t);
    }
  }

  lemma LockKeepsAttended(s: State, a: Action)
    requires Attended(s) && (a.TryLock? || a.Withdraw?)
    ensures Attended(Step(s, a))
  {
    var s' := Step(s, a);
    if s' != s && a.Withdraw? {
      assert Coming(s', a.t);
    }
  }

  lemma MovesKeepDelivered(s: State, a: Action)
    requires Typed(s) && Delivered(s) && (a.Attempt? || a.GoPark? || a.Resume? || a.Consume?)
    requires forall t :: Waits(Step(s, a), t) == Waits(s, t)
    ensures Delivered(Step(s, a))
  {
    var s' := Step(s, a);
    assert forall t :: BeingWoken(s, t) ==> BeingWoken(s', t);
  }

  lemma WakesKeepDelivered(s: State, a: Action)
    requires Typed(s) && Delivered(s) && (a.WakeTarget? || a.Spurious?)
    requires forall t :: Waits(Step(s, a), t) == Waits(s, t)
    ensures Delivered(Step(s, a))
  {
    var s' := Step(s, a);
    assert a.WakeTarget? && s' != s ==> forall t :: BeingWoken(s, t) ==> t == s.stage[a.t].target;
    assert a.Spurious? ==> forall t :: BeingWoken(s, t) ==> BeingWoken(s', t);
  }

  lemma LockKeepsDelivered(s: State, a: Action)
    requires Typed(s) && Delivered(s) && (a.TryLock? || a.Withdraw?)
    requires forall u :: u != a.t ==> Waits(Step(s, a), u) == Waits(s, u)
    ensures Delivered(Step(s, a))
  {
    var s' := Step(s, a);
    assert forall u :: BeingWoken(s, u) ==> BeingWoken(s', u);
    assert s' != s && s'.stage[a.t].Leaving? ==> Waits(s', a.t);
  }

  lemma UnlockKeepsDelivered(s: State, t: Task)
    requires Typed(s) && Delivered(s)
    requires forall u :: (s.waiters == [] || u != s.waiters[0].task) ==> Waits(Step(s, Unlock(t)), u) == Waits(s, u)
    ensures Delivered(Step(s, Unlock(t)))
  {
    var s' := Step(s, Unlock(t));
    if s' != s {
      assert s.latch.None?;
      assert s.waiters != [] ==> BeingWoken(s', s.waiters[0].task);
    }
  }

  lemma StepKeepsInv(s: State, owner: Option<Task>, issued: map<nat, Task>, a: Action)
    requires Inv(s, owner, issued)
    ensures Inv(Step(s, a), NextOwner(s, owner, a), NextIssued(s, issued, a))
  {
    StepKeepsExclusive(s, owner, a);
    StepKeepsIssued(s, issued, a);
    match a
    case Attempt(_) | GoPark(_) | Resume(_) =>
      StageKeepsTyped(s, a);
      MovesKeepEntries(s, a);
      MovesKeepAttended(s, a);
      MovesKeepDelivered(s, a);
    case Consume(_) =>
      WakeKeepsTyped(s, a);
      MovesKeepEntries(s, a);
      MovesKeepAttended(s, a);
      MovesKeepDelivered(s, a);
    case WakeTarget(_) | Spurious(_) =>
      WakeKeepsTyped(s, a);
      MovesKeepEntries(s, a);
      MovesKeepAttended(s, a);
      WakesKeepDelivered(s, a);
    case TryLock(t) =>
      StageKeepsTyped(s, a);
      TryLockKeepsEntries(s, issued, t);
      LockKeepsAttended(s, a);
      LockKeepsDelivered(s, a);
    case Withdraw(t) =>
      StageKeepsTyped(s, a);
      WithdrawKeepsEntries(s, issued, t);
      LockKeepsAttended(s, a);
      LockKeepsDelivered(s, a);
    case Unlock(t) =>
      UnlockKeepsTyped(s, t);
      UnlockKeepsEntries(s, t);
      UnlockKeepsDelivered(s, t);
  }

  lemma {:induction false} PlayKeepsInv(s: State, owner: Option<Task>, issued: map<nat, Task>, actions: seq<Action>)
    returns (endOwner: Option<Task>, endIssued: map<nat, Task>)
    requires Inv(s, owner, issued)
    ensures Inv(Play(s, actions), endOwner, endIssued)
    decreases |actions|
  {
    if actions == [] {
      endOwner, endIssued := owner, issued;
    } else {
      var a := actions[0];
      StepKeepsInv(s, owner, issued, a);
      endOwner, endIssued := PlayKeepsInv(Step(s, a), NextOwner(s, owner, a), NextIssued(s, issued, a), actions[1..]);
    }
  }

  // ── What every interleaving guarantees ───────────────────

  /** At most one task holds the mutex, and one does exactly when it is locked. */
  lemma MutualExclusion(tasks: set<Task>, actions: seq<Action>)
    ensures var s := Play(Start(tasks), actions);
      && (forall t, u :: t in s.stage && u in s.stage && s.stage[t].Holding? && s.stage[u].Holding? ==> t == u)
      && (s.locked <==> exists t :: t in s.stage && s.stage[t].Holding?)
  {
    var owner, issued := PlayKeepsInv(Start(tasks), None, map[], actions);
  }

  lemma PlayFirst(s: State, a: Action, rest: seq<Action>)
    ensures Play(s, [a] + rest) == Play(Step(s, a), rest)
  {
    assert ([a] + rest)[1..] == rest;
  }

  /** `t` holds the lock at the end of `actions`, all its own. */
  ghost predicate ReachesLock(s: State, t: Task, actions: seq<Action>) {
    && (forall a :: a in actions ==> a.t == t)
    && var end := Play(s, actions); t in end.stage && end.stage[t].Holding?
  }

  /** With the lock and its latch free, a task on its way takes the lock by its own steps. */
  lemma {:induction false} OwnSteps(s: State, t: Task, fuel: nat) returns (actions: seq<Action>)
    requires Typed(s) && !s.locked && s.latch.None? && t in s.stage
    requires var here := s.stage[t];
      || here.Trying? || (here.Woken? && fuel >= 1)
      || (here.Suspended? && s.status[t].Queued? && fuel >= 2)
      || (here.Leaving? && s.status[t].Notified? && fuel >= 3)
    ensures ReachesLock(s, t, actions)
    decreases fuel
  {
    var a := match s.stage[t]
      case Trying(_) => TryLock(t)
      case Woken(_) => Withdraw(t)
      case Suspended(_) => Resume(t)
      case _ => GoPark(t);
    StageKeepsTyped(s, a);
    var rest: seq<Action> := [];
    if !a.TryLock? {
      rest := OwnSteps(Step(s, a), t, fuel - 1);
    }
    PlayFirst(s, a, rest);
    actions := [a] + rest;
  }

  /** Whenever the mutex is free while tickets wait, nobody is stranded: once the unlocking task,
      if it has not finished, has woken the waiter it popped, some task whose ticket was removed,
      a newcomer never counting, takes the lock by its own steps alone. */
  lemma NobodyStranded(tasks: set<Task>, actions: seq<Action>) returns (t: Task, more: seq<Action>)
    requires var s := Play(Start(tasks), actions); !s.locked && s.waiters != []
    ensures var s := Play(Start(tasks), actions);
      && Coming(s, t)
      && ReachesLock(if s.latch.Some? then Step(s, WakeTarget(s.latch.value)) else s, t, more)
  {
    var owner, issued := PlayKeepsInv(Start(tasks), None, map[], actions);
    var s := Play(Start(tasks), actions);
    t :| Coming(s, t);
    var s' := s;
    if s.latch.Some? {
      s' := Step(s, WakeTarget(s.latch.value));
      WakeKeepsTyped(s, WakeTarget(s.latch.value));
    }
    more := OwnSteps(s', t, 3);
  }

  // ── The order of the queue ───────────────────────────────

  /** Tickets are queued in the order they were given. */
  ghost predicate InOrder(s: State) {
    && (forall i, j :: 0 <= i < j < |s.waiters| ==> s.waiters[i].ticket < s.waiters[j].ticket)
    && (forall w :: w in s.waiters ==> w.ticket < s.nextTicket)
  }

  lemma {:induction false} WithoutInOrder(ws: seq<Waiter>, ticket: nat)
    requires forall i, j :: 0 <= i < j < |ws| ==> ws[i].ticket < ws[j].ticket
    ensures var rest := Without(ws, ticket);
      && (forall w :: w in rest ==> w in ws)
      && (forall i, j :: 0 <= i < j < |rest| ==> rest[i].ticket < rest[j].ticket)
  {
    if ws != [] {
      WithoutInOrder(ws[1..], ticket);
      var rest := Without(ws[1..], ticket);
      forall i | 0 <= i < |rest| ensures ws[0].ticket < rest[i].ticket {
        assert rest[i] in ws[1..];
      }
    }
  }

  lemma StepKeepsOrder(s: State, a: Action)
    requires InOrder(s)
    ensures InOrder(Step(s, a))
  {
    if a.Withdraw? && Step(s, a) != s {
      WithoutInOrder(s.waiters, s.stage[a.t].ticket);
    }
  }

  lemma {:induction false} PlayKeepsOrder(s: State, actions: seq<Action>)
    requires InOrder(s)
    ensures InOrder(Play(s, actions))
    decreases |actions|
  {
    if actions != [] {
      StepKeepsOrder(s, actions[0]);
      PlayKeepsOrder(Step(s, actions[0]), actions[1..]);
    }
  }

  /** The task of the oldest ticket still queued. */
  ghost predicate IsOldest(s: State, t: Task) {
    Waits(s, t) && forall u :: Waits(s, u) ==> s.stage[t].ticket <= s.stage[u].ticket
  }

  /** An unlock frees the mutex, and takes the oldest ticket out of the queue to wake its task; the
      others keep waiting. */
  lemma UnlockTakesOldest(tasks: set<Task>, actions: seq<Action>, t: Task)
    requires var s := Play(Start(tasks), actions); t in s.stage && s.stage[t].Holding? && s.latch.None?
    ensures var s := Play(Start(tasks), actions); var s' := Step(s, Unlock(t));
      && !s'.locked && t in s'.stage
      && (s'.stage[t] == Outside <==> forall u :: !Waits(s, u))
      && (s'.stage[t] != Outside ==>
            && s'.stage[t].Waking? && IsOldest(s, s'.stage[t].target)
            && forall u :: Waits(s', u) <==> Waits(s, u) && u != s'.stage[t].target)
  {
    var owner, issued := PlayKeepsInv(Start(tasks), None, map[], actions);
    PlayKeepsOrder(Start(tasks), actions);
    var s := Play(Start(tasks), actions);
    UnlockInOrder(s, t);
  }

  lemma UnlockInOrder(s: State, t: Task)
    requires Typed(s) && Entries(s) && InOrder(s) && t in s.stage && s.stage[t].Holding? && s.latch.None?
    ensures var s' := Step(s, Unlock(t));
      && !s'.locked && t in s'.stage
      && (s'.stage[t] == Outside <==> forall u :: !Waits(s, u))
      && (s'.stage[t] != Outside ==>
            && s'.stage[t].Waking? && IsOldest(s, s'.stage[t].target)
            && forall u :: Waits(s', u) <==> Waits(s, u) && u != s'.stage[t].target)
  {
    UnlockKeepsEntries(s, t);
    if s.waiters != [] {
      var first := s.waiters[0];
      assert Owned(s.stage, first) && Waits(s, first.task);
      forall u | Waits(s, u) ensures first.ticket <= s.stage[u].ticket {
        var i :| 0 <= i < |s.waiters| && s.waiters[i] == Waiter(s.stage[u].ticket, u);
      }
    }
  }

  /** A task that finds the mutex locked waits behind all others. */
  lemma LockedWaitsLast(tasks: set<Task>, actions: seq<Action>, t: Task)
    requires var s := Play(Start(tasks), actions);
      t in s.stage && s.stage[t].Trying? && s.latch.None? && s.locked
    ensures var s := Play(Start(tasks), actions); var s' := Step(s, TryLock(t));
      && Waits(s', t) && s'.locked
      && forall u :: u != t && Waits(s', u) ==> Waits(s, u) && s'.stage[u].ticket < s'.stage[t].ticket
  {
    var owner, issued := PlayKeepsInv(Start(tasks), None, map[], actions);
    PlayKeepsOrder(Start(tasks), actions);
    TryLockKeepsEntries(Play(Start(tasks), actions), issued, t);
  }

  /** Whatever the run, a task goes on by a step of its own, unless it is parked or another one is
      inside the latch. */
  lemma TasksGoOn(tasks: set<Task>, actions: seq<Action>, t: Task) returns (a: Action)
    requires var s := Play(Start(tasks), actions);
      && t in s.stage && (s.latch.None? || s.latch == Some(t))
      && t in s.status && !s.status[t].Parked?
    ensures var s := Play(Start(tasks), actions); a.t == t && t in Step(s, a).stage && Step(s, a).stage[t] != s.stage[t]
  {
    var owner, issued := PlayKeepsInv(Start(tasks), None, map[], actions);
    var s := Play(Start(tasks), actions);
    a := match s.stage[t]
      case Outside => Attempt(t)
      case Trying(_) => TryLock(t)
      case Leaving(_) => GoPark(t)
      case Suspended(_) => Resume(t)
      case Woken(_) => Withdraw(t)
      case Holding => Unlock(t)
      case Waking(_) => WakeTarget(t);
  }
}
