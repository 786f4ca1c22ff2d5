/** The condition variable of the green runtime, used as its contract asks: the condition is a
    flag guarded by a mutex, waiters check it in a loop, and whoever raises it notifies, still
    holding the mutex or after releasing it. The mutex is taken as exclusive (see `GreenMutex`). */
module Condvar {
  import opened Wrappers
  import opened Parking

  datatype Stage =
    | Outside
    | Checking                  // holds the mutex, about to check the flag
    | Registered(ticket: nat)   // holds the mutex, its ticket queued
    | Leaving(ticket: nat)      // released the mutex, about to park
    | Suspended(ticket: nat)
    | Woken(ticket: nat)        // running again, about to withdraw its ticket
    | Relocking
    | Setting                   // holds the mutex, about to change the flag
    | MustNotify(held: bool)    // `held`: it still holds the mutex
    | Notifying(targets: seq<Task>, held: bool)

  datatype State = State(
    flag: bool,
    holder: Option<Task>,
    waiters: seq<Waiter>,
    lastTicket: nat,
    stage: map<Task, Stage>,
    status: map<Task, Status>)

  datatype Action =
    | LockToWait(t: Task)
    | Check(t: Task)
    | Release(t: Task)
    | GoPark(t: Task)
    | Resume(t: Task)
    | Withdraw(t: Task)
    | LockToSet(t: Task)
    | Set(t: Task, flag: bool, hold: bool)
    | Unlock(t: Task)
    | TakeAll(t: Task)
    | WakeNext(t: Task)
    | Spurious(t: Task)
    | Consume(t: Task)

  function Tasks(ws: seq<Waiter>): (r: seq<Task>)
    ensures |r| == |ws| && forall i :: 0 <= i < |ws| ==> r[i] == ws[i].task
  {
    if ws == [] then [] else [ws[0].task] + Tasks(ws[1..])
  }

  /** One step; an action that is not possible changes nothing. */
  function Step(s: State, a: Action): State {
    var t := a.t;
    if t !in s.stage || t !in s.status then s
    else
      var here := s.stage[t];
      match a
      case LockToWait(_) =>
        if (here.Outside? || here.Relocking?) && s.holder.None? then
          s.(holder := Some(t), stage := s.stage[t := Checking])
        else s
      case Check(_) =>
        if !here.Checking? then s
        else if s.flag then s.(holder := None, stage := s.stage[t := Outside])
        else s.(waiters := s.waiters + [Waiter(s.lastTicket + 1, t)], lastTicket := s.lastTicket + 1,
                stage := s.stage[t := Registered(s.lastTicket + 1)])
      case Release(_) =>
        if here.Registered? then s.(holder := None, stage := s.stage[t := Leaving(here.ticket)]) else s
      case GoPark(_) =>
        if here.Leaving? then
          s.(stage := s.stage[t := Suspended(here.ticket)], status := s.status[t := Park(s.status[t])])
        else s
      case Resume(_) =>
        if here.Suspended? && s.status[t].Queued? then
          s.(stage := s.stage[t := Woken(here.ticket)], status := s.status[t := Running])
        else s
      case Withdraw(_) =>
        if here.Woken? then s.(waiters := Without(s.waiters, here.ticket), stage := s.stage[t := Relocking]) else s
      case LockToSet(_) =>
        if here.Outside? && s.holder.None? then s.(holder := Some(t), stage := s.stage[t := Setting]) else s
      case Set(_, flag, hold) =>
        if here.Setting? then
          s.(flag := flag, holder := if hold then s.holder else None,
             stage := s.stage[t := if flag then MustNotify(hold) else if hold then Setting else Outside])
        else s
      case Unlock(_) =>
        if here.Setting? then s.(holder := None, stage := s.stage[t := Outside])
        else if here.MustNotify? && here.held then s.(holder := None, stage := s.stage[t := MustNotify(false)])
        else s
      case TakeAll(_) =>
        if here.MustNotify? then s.(waiters := [], stage := s.stage[t := Notifying(Tasks(s.waiters), here.held)])
        else s
      case WakeNext(_) =>
        if !here.Notifying? then s
        else if here.targets == [] then s.(stage := s.stage[t := if here.held then Setting else Outside])
        else if here.targets[0] !in s.status then s
        else s.(stage := s.stage[t := Notifying(here.targets[1..], here.held)],
                status := s.status[here.targets[0] := Wake(s.status[here.targets[0]])])
      case Spurious(_) => s.(status := s.status[t := Wake(s.status[t])])
      case Consume(_) =>
        if (here.Outside? || here.Checking? || here.Setting? || here.Relocking?) && s.status[t].Notified? then
          s.(status := s.status[t := Running])
        else s
  }

  function Start(tasks: set<Task>): State {
    State(false, None, [], 0, map t | t in tasks :: Outside, map t | t in tasks :: Running)
  }

  function Play(s: State, actions: seq<Action>): State
    decreases |actions|
  {
    if actions == [] then s else Play(Step(s, actions[0]), actions[1..])
  }

  // ── Invariants ───────────────────────────────────────────

  predicate Holds(here: Stage) {
    here.Checking? || here.Registered? || here.Setting? || ((here.MustNotify? || here.Notifying?) && here.held)
  }

  predicate HasTicket(here: Stage) { here.Registered? || here.Leaving? || here.Suspended? || here.Woken? }

  predicate Waits(s: State, t: Task) {
    t in s.stage && HasTicket(s.stage[t]) && Waiter(s.stage[t].ticket, t) in s.waiters
  }

  predicate IsRunning(status: Status) { status.Running? || status.Notified? }

  predicate Owned(stage: map<Task, Stage>, w: Waiter) {
    w.task in stage && HasTicket(stage[w.task]) && stage[w.task].ticket == w.ticket
  }

  /** Task `x` has taken the waiters and has yet to wake `t`. */
  predicate WillWake(s: State, x: Task, t: Task) {
    x in s.stage && s.stage[x].Notifying? && t in s.stage[x].targets
  }

  ghost predicate BeingWoken(s: State, t: Task) { exists x :: WillWake(s, x, t) }

  ghost predicate Typed(s: State) {
    && s.stage.Keys == s.status.Keys
    && (forall t :: t in s.stage ==> (s.stage[t].Suspended? <==> !IsRunning(s.status[t])))
    && (forall t :: t in s.stage ==>
         (Holds(s.stage[t]) <==> s.holder == Some(t)))
    && (forall t, u :: WillWake(s, t, u) ==> u in s.stage)
  }

  ghost predicate Entries(s: State) {
    Distinct(s.waiters) && forall w :: w in s.waiters ==> Owned(s.stage, w)
  }

  ghost predicate Issued(s: State, issued: map<nat, Task>) {
    && (forall n :: n in issued ==> n <= s.lastTicket)
    && (forall t :: t in s.stage && HasTicket(s.stage[t]) ==>
         s.stage[t].ticket in issued && issued[s.stage[t].ticket] == t)
  }

  /** A task whose ticket was taken is not left parked: its wake is delivered or under way. */
  ghost predicate Delivered(s: State) {
    forall t :: t in s.stage && HasTicket(s.stage[t]) && !s.stage[t].Woken? && !Waits(s, t) ==>
      BeingWoken(s, t) || (t in s.status && (s.status[t].Notified? || s.status[t].Queued?))
  }

  /** While tickets wait and the flag is up, somebody has yet to notify them. */
  ghost predicate Announced(s: State) {
    && (s.flag && s.waiters != [] ==> exists x :: x in s.stage && s.stage[x].MustNotify?)
    && (forall t :: t in s.stage && s.stage[t].Registered? ==> !s.flag)
  }

  ghost predicate Inv(s: State, issued: map<nat, Task>) {
    Typed(s) && Entries(s) && Issued(s, issued) && Delivered(s) && Announced(s)
  }

  function NextIssued(s: State, issued: map<nat, Task>, a: Action): map<nat, Task> {
    if Step(s, a).lastTicket > s.lastTicket then issued[s.lastTicket + 1 := a.t] else issued
  }

  predicate Moves(a: Action) {
    a.LockToWait? || a.Release? || a.GoPark? || a.Resume? || a.LockToSet? || a.Set? || a.Unlock? || a.WakeNext?
    || a.Spurious?
    || a.Consume?
  }

  lemma StageKeepsTyped(s: State, a: Action)
    requires Typed(s) && !(a.TakeAll? || a.WakeNext? || a.Spurious? || a.Consume?)
    ensures Typed(Step(s, a))
  {
    var s' := Step(s, a);
    forall t, u | WillWake(s', t, u) ensures u in s'.stage {
      assert WillWake(s, t, u);
    }
  }

  lemma WakesKeepTyped(s: State, a: Action)
    requires Typed(s) && (a.WakeNext? || a.Spurious? || a.Consume?)
    ensures Typed(Step(s, a))
  {
    var s' := Step(s, a);
    forall t, u | WillWake(s', t, u) ensures u in s'.stage {
      assert WillWake(s, t, u);
    }
  }

  lemma TakeAllKeepsTyped(s: State, t: Task)
    requires Typed(s) && Entries(s)
    ensures Typed(Step(s, TakeAll(t)))
  {
    var s' := Step(s, TakeAll(t));
    forall x, u | WillWake(s', x, u) ensures u in s'.stage {
      if x == t && s' != s {
        var i :| 0 <= i < |s.waiters| && Tasks(s.waiters)[i] == u;
        assert Owned(s.stage, s.waiters[i]);
      } else {
        assert WillWake(s, x, u);
      }
    }
  }

  lemma StepKeepsIssued(s: State, issued: map<nat, Task>, a: Action)
    requires Issued(s, issued)
    ensures Issued(Step(s, a), NextIssued(s, issued, a))
  {
  }

  lemma MovesKeepEntries(s: State, a: Action)
    requires Entries(s) && Moves(a)
    ensures Entries(Step(s, a))
    ensures forall t :: Waits(Step(s, a), t) == Waits(s, t)
  {
    var s' := Step(s, a);
    forall w | w in s'.waiters ensures Owned(s'.stage, w) {
      assert Owned(s.stage, w);
    }
    assert forall t :: Waits(s', t) == Waits(s, t);
  }

  lemma CheckKeepsEntries(s: State, issued: map<nat, Task>, t: Task)
    requires Entries(s) && Issued(s, issued)
    ensures Entries(Step(s, Check(t)))
    ensures forall u :: u != t ==> Waits(Step(s, Check(t)), u) == Waits(s, u)
  {
    var s' := Step(s, Check(t));
    if s' != s {
      forall w | w in s'.waiters ensures Owned(s'.stage, w) {
        assert w in s.waiters ==> Owned(s.stage, w);
      }
      assert Waiter(s.lastTicket + 1, t) !in s.waiters;
      assert forall u :: u != t ==> Waits(s', u) == Waits(s, u);
    }
  }

  lemma WithdrawKeepsEntries(s: State, issued: map<nat, Task>, t: Task)
    requires Entries(s) && Issued(s, issued)
    ensures Entries(Step(s, Withdraw(t)))
    ensures forall u :: u != t ==> Waits(Step(s, Withdraw(t)), u) == Waits(s, u)
  {
    var s' := Step(s, Withdraw(t));
    if s' != s {
      WithoutMembers(s.waiters, s.stage[t].ticket);
      forall w | w in s'.waiters ensures Owned(s'.stage, w) {
        assert Owned(s.stage, w);
      }
      assert forall u :: u != t ==> Waits(s', u) == Waits(s, u);
    }
  }

  lemma MovesKeepDelivered(s: State, a: Action)
    requires Typed(s) && Delivered(s) && Moves(a) && !a.WakeNext?
    requires forall t :: Waits(Step(s, a), t) == Waits(s, t)
    ensures Delivered(Step(s, a))
  {
    var s' := Step(s, a);
    assert forall x, u :: WillWake(s, x, u) ==> WillWake(s', x, u);
  }

  lemma WakeNextKeepsDelivered(s: State, t: Task)
    requires Typed(s) && Delivered(s)
    requires forall u :: Waits(Step(s, WakeNext(t)), u) == Waits(s, u)
    ensures Delivered(Step(s, WakeNext(t)))
  {
    var s' := Step(s, WakeNext(t));
    if s' != s {
      var targets := s.stage[t].targets;
      assert forall x, u :: WillWake(s, x, u) && (targets == [] || u != targets[0]) ==> WillWake(s', x, u);
    }
  }

  lemma TicketsKeepDelivered(s: State, a: Action)
    requires Typed(s) && Delivered(s) && (a.Check? || a.Withdraw?)
    requires forall u :: u != a.t ==> Waits(Step(s, a), u) == Waits(s, u)
    ensures Delivered(Step(s, a))
  {
    var s' := Step(s, a);
    assert forall x, u :: WillWake(s, x, u) ==> WillWake(s', x, u);
    assert s' != s && s'.stage[a.t].Registered? ==> Waits(s', a.t);
  }

  lemma TakeAllKeepsDelivered(s: State, t: Task)
    requires Typed(s) && Delivered(s)
    ensures Delivered(Step(s, TakeAll(t)))
  {
    var s' := Step(s, TakeAll(t));
    if s' != s {
      assert forall x, u :: WillWake(s, x, u) ==> WillWake(s', x, u);
      forall u | Waits(s, u) ensures WillWake(s', t, u) {
        var i :| 0 <= i < |s.waiters| && s.waiters[i] == Waiter(s.stage[u].ticket, u);
        assert Tasks(s.waiters)[i] == u;
      }
    }
  }

  lemma StepKeepsAnnounced(s: State, a: Action)
    requires Typed(s) && Entries(s) && Announced(s) && (a.Withdraw? ==> Entries(Step(s, a)))
    ensures Announced(Step(s, a))
  {
    var s' := Step(s, a);
    if x :| x in s.stage && s.stage[x].MustNotify? {
      assert s'.stage[x].MustNotify? || (a.TakeAll? && s'.waiters == []);
    }
    if a.Set? && s' != s && s'.flag {
      assert s'.stage[a.t].MustNotify?;
    }
    assert s.waiters == [] && a.Withdraw? ==> s'.waiters == [];
  }

  lemma TicketsKept(s: State, issued: map<nat, Task>, a: Action)
    requires Inv(s, issued) && (a.TakeAll? || a.Check? || a.Withdraw?)
    ensures var s' := Step(s, a); Typed(s') && Entries(s') && Delivered(s')
  {
    match a
    case TakeAll(t) =>
      TakeAllKeepsTyped(s, t);
      TakeAllKeepsDelivered(s, t);
    case Check(t) =>
      StageKeepsTyped(s, a);
      CheckKeepsEntries(s, issued, t);
      TicketsKeepDelivered(s, a);
    case Withdraw(t) =>
      StageKeepsTyped(s, a);
      WithdrawKeepsEntries(s, issued, t);
      TicketsKeepDelivered(s, a);
  }

  lemma MovesKept(s: State, issued: map<nat, Task>, a: Action)
    requires Inv(s, issued) && Moves(a)
    ensures var s' := Step(s, a); Typed(s') && Entries(s') && Delivered(s')
  {
    MovesKeepEntries(s, a);
    if a.WakeNext? || a.Spurious? || a.Consume? {
      WakesKeepTyped(s, a);
    } else {
      StageKeepsTyped(s, a);
    }
    if a.WakeNext? {
      WakeNextKeepsDelivered(s, a.t);
    } else {
      MovesKeepDelivered(s, a);
    }
  }

  lemma StepKeepsInv(s: State, issued: map<nat, Task>, a: Action)
    requires Inv(s, issued)
    ensures Inv(Step(s, a), NextIssued(s, issued, a))
  {
    StepKeepsIssued(s, issued, a);
    if Moves(a) {
      MovesKept(s, issued, a);
    } else {
      TicketsKept(s, issued, a);
    }
    StepKeepsAnnounced(s, a);
  }

  lemma {:induction false} PlayKeepsInv(s: State, issued: map<nat, Task>, actions: seq<Action>)
    returns (end: map<nat, Task>)
    requires Inv(s, issued)
    ensures Inv(Play(s, actions), end)
    decreases |actions|
  {
    if actions == [] {
      end := issued;
    } else {
      StepKeepsInv(s, issued, actions[0]);
      end := PlayKeepsInv(Step(s, actions[0]), NextIssued(s, issued, actions[0]), actions[1..]);
    }
  }

  /** No notification is missed: a task left parked while the flag is up is about to be woken, or
      its ticket is still queued and somebody who raised the flag has yet to notify. */
  lemma NoMissedNotification(tasks: set<Task>, actions: seq<Action>, t: Task)
    requires var s := Play(Start(tasks), actions);
      s.flag && t in s.stage && s.stage[t].Suspended? && t in s.status && s.status[t].Parked?
    ensures var s := Play(Start(tasks), actions);
      || (exists x :: WillWake(s, x, t))
      || (Waits(s, t) && exists x :: x in s.stage && s.stage[x].MustNotify?)
  {
    var issued := PlayKeepsInv(Start(tasks), map[], actions);
    var s := Play(Start(tasks), actions);
    assert !Waits(s, t) ==> BeingWoken(s, t);
  }

  /** Every ticket a notification took belongs to a task that is woken, or about to be: it is not
      parked unless its wake is under way. */
  lemma TakenTicketsAreWoken(tasks: set<Task>, actions: seq<Action>, t: Task)
    requires var s := Play(Start(tasks), actions);
      t in s.stage && HasTicket(s.stage[t]) && !Waits(s, t) && t in s.status && s.status[t].Parked?
    ensures exists x :: WillWake(Play(Start(tasks), actions), x, t)
  {
    var issued := PlayKeepsInv(Start(tasks), map[], actions);
    assert BeingWoken(Play(Start(tasks), actions), t);
  }

  /** The step a task is up to. */
  function Own(here: Stage, t: Task): Action {
    match here
    case Outside | Relocking => LockToWait(t)
    case Checking => Check(t)
    case Registered(_) => Release(t)
    case Leaving(_) => GoPark(t)
    case Suspended(_) => Resume(t)
    case Woken(_) => Withdraw(t)
    case Setting => Unlock(t)
    case MustNotify(_) => TakeAll(t)
    case Notifying(_, _) => WakeNext(t)
  }

  lemma OwnChanges(s: State, t: Task)
    requires Typed(s) && t in s.stage && (s.holder.None? || s.holder == Some(t)) && !s.status[t].Parked?
    ensures var s' := Step(s, Own(s.stage[t], t)); t in s'.stage && s'.stage[t] != s.stage[t]
  {
    if s.stage[t].Notifying? && s.stage[t].targets != [] {
      assert WillWake(s, t, s.stage[t].targets[0]);
      assert |s.stage[t].targets[1..]| != |s.stage[t].targets|;
    }
  }

  /** Whatever the run, a task goes on by a step of its own, unless it is parked or needs the mutex
      that another one holds. */
  lemma TasksGoOn(tasks: set<Task>, actions: seq<Action>, t: Task) returns (a: Action)
    requires var s := Play(Start(tasks), actions);
      && t in s.stage && (s.holder.None? || s.holder == Some(t))
      && t in s.status && !s.status[t].Parked?
    ensures var s := Play(Start(tasks), actions); a.t == t && t in Step(s, a).stage && Step(s, a).stage[t] != s.stage[t]
  {
    hide Play, Step;
    var issued := PlayKeepsInv(Start(tasks), map[], actions);
    OwnChanges(Play(Start(tasks), actions), t);
    a := Own(Play(Start(tasks), actions).stage[t], t);
  }
}
