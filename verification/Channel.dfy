/** The channel of the green runtime: any number of senders, one receiver, which parks. */
module Channel {
  import opened Wrappers
  import opened Parking

  datatype Stage =
    | Outside
    | Waking(target: Task)   // sending or dropping a sender: took the registered receiver
    | Receiving              // about to look
    | Leaving                // registered, about to park
    | Suspended

  /** `latch`: the task inside a section of the OS lock that takes several steps; `caller`: the
      task inside `recv`. `accepted`, `received` and `ended` record what callers saw. */
  datatype State<T> = State(
    items: seq<T>,
    senders: nat,
    open: bool,
    registered: Option<Task>,
    latch: Option<Task>,
    caller: Option<Task>,
    stage: map<Task, Stage>,
    status: map<Task, Status>,
    accepted: seq<T>,
    received: seq<T>,
    ended: bool)

  datatype Action<T> =
    | Send(t: Task, value: T)
    | CloneSender(t: Task)
    | DropSender(t: Task)
    | WakeTarget(t: Task)
    | Recv(t: Task)
    | Look(t: Task)
    | GoPark(t: Task)
    | Resume(t: Task)
    | DropReceiver(t: Task)
    | Spurious(t: Task)
    | Consume(t: Task)

  /** Wakes the registered receiver, if any, still under the OS lock. */
  function TakeReceiver<T>(s: State<T>, t: Task): State<T> {
    match s.registered
    case None => s
    case Some(r) => s.(registered := None, latch := Some(t), stage := s.stage[t := Waking(r)])
  }

  /** One step; an action that is not possible changes nothing. */
  function Step<T>(s: State<T>, a: Action<T>): State<T> {
    var t := a.t;
    if t !in s.stage || t !in s.status then s
    else
      var here := s.stage[t];
      match a
      case Send(_, value) =>
        if !here.Outside? || s.latch.Some? || s.senders == 0 || !s.open then s
        else TakeReceiver(s.(items := s.items + [value], accepted := s.accepted + [value]), t)
      case CloneSender(_) =>
        if here.Outside? && s.latch.None? && s.senders > 0 then s.(senders := s.senders + 1) else s
      case DropSender(_) =>
        if !here.Outside? || s.latch.Some? || s.senders == 0 then s
        else if s.senders == 1 then TakeReceiver(s.(senders := 0), t)
        else s.(senders := s.senders - 1)
      case WakeTarget(_) =>
        if !here.Waking? || here.target !in s.status then s
        else s.(latch := None, stage := s.stage[t := Outside],
                status := s.status[here.target := Wake(s.status[here.target])])
      case Recv(_) =>
        if here.Outside? && s.open && s.caller.None? then
          s.(caller := Some(t), stage := s.stage[t := Receiving])
        else s
      case Look(_) =>
        if !here.Receiving? || s.latch.Some? then s
        else if s.items != [] then
          s.(items := s.items[1..], received := s.received + [s.items[0]], caller := None,
             stage := s.stage[t := Outside])
        else if s.senders == 0 then s.(ended := true, caller := None, stage := s.stage[t := Outside])
        else s.(registered := Some(t), stage := s.stage[t := Leaving])
      case GoPark(_) =>
        if here.Leaving? then s.(stage := s.stage[t := Suspended], status := s.status[t := Park(s.status[t])]) else s
      case Resume(_) =>
        if here.Suspended? && s.status[t].Queued? then
          s.(stage := s.stage[t := Receiving], status := s.status[t := Running])
        else s
      case DropReceiver(_) =>
        if here.Outside? && s.latch.None? && s.caller.None? then s.(open := false, items := []) else s
      case Spurious(_) => s.(status := s.status[t := Wake(s.status[t])])
      case Consume(_) =>
        if here.Outside? && s.status[t].Notified? then s.(status := s.status[t := Running]) else s
  }

  function Start<T>(tasks: set<Task>): State<T> {
    State([], 1, true, None, None, None, map t | t in tasks :: Outside, map t | t in tasks :: Running, [], [], false)
  }

  function Play<T>(s: State<T>, actions: seq<Action<T>>): State<T>
    decreases |actions|
  {
    if actions == [] then s else Play(Step(s, actions[0]), actions[1..])
  }

  // ── Invariants ───────────────────────────────────────────

  predicate IsRunning(status: Status) { status.Running? || status.Notified? }

  predicate BeingWoken<T>(s: State<T>, t: Task) {
    s.latch.Some? && s.latch.value in s.stage && s.stage[s.latch.value] == Waking(t)
  }

  ghost predicate Typed<T>(s: State<T>) {
    && s.stage.Keys == s.status.Keys
    && (forall t :: t in s.stage ==> (s.stage[t].Suspended? <==> !IsRunning(s.status[t])))
    && (forall t :: t in s.stage ==> (s.stage[t].Waking? <==> s.latch == Some(t)))
    && (forall t :: t in s.stage && s.stage[t].Waking? ==> s.stage[t].target in s.stage)
    && (forall t :: t in s.stage ==>
         (s.stage[t].Receiving? || s.stage[t].Leaving? || s.stage[t].Suspended? <==> s.caller == Some(t)))
    && (s.latch.Some? ==> s.latch.value in s.stage)
    && (s.caller.Some? ==> s.caller.value in s.stage && s.open)
  }

  /** A registered receiver has nothing to receive yet, and a sender to wait for. */
  ghost predicate Registered<T>(s: State<T>) {
    s.registered.Some? ==> s.items == [] && s.senders > 0 && s.caller == s.registered
  }

  /** A receiver that is no longer registered is not left parked. */
  ghost predicate Delivered<T>(s: State<T>) {
    forall t :: t in s.stage && (s.stage[t].Leaving? || s.stage[t].Suspended?) && s.registered != Some(t) ==>
      BeingWoken(s, t) || (t in s.status && (s.status[t].Notified? || s.status[t].Queued?))
  }

  ghost predicate Conserved<T>(s: State<T>) {
    && (s.open ==> s.accepted == s.received + s.items)
    && s.received <= s.accepted
    && (!s.open ==> s.items == [])
    && (s.ended ==> s.senders == 0 && (s.open ==> s.items == []))
  }

  ghost predicate Inv<T>(s: State<T>) {
    Typed(s) && Registered(s) && Delivered(s) && Conserved(s)
  }

  lemma StepKeepsConserved<T>(s: State<T>, a: Action<T>)
    requires Typed(s) && Conserved(s)
    ensures Conserved(Step(s, a))
  {
    if a.Look? && s.items != [] {
      assert s.received + s.items == s.received + [s.items[0]] + s.items[1..];
    }
    if a.Send? {
      assert s.received + s.items + [a.value] == s.received + (s.items + [a.value]);
    }
  }

  lemma StepKeepsRegistered<T>(s: State<T>, a: Action<T>)
    requires Typed(s) && Registered(s)
    ensures Registered(Step(s, a))
  {
  }

  predicate Sends<T>(a: Action<T>) { a.Send? || a.CloneSender? || a.DropSender? || a.DropReceiver? }

  predicate Wakes<T>(a: Action<T>) { a.WakeTarget? || a.Spurious? || a.Consume? }

  lemma TakeReceiverKeepsTyped<T>(s: State<T>, t: Task)
    requires Typed(s) && s.latch.None? && t in s.stage && s.stage[t].Outside?
    requires s.registered.Some? ==> s.registered == s.caller
    ensures Typed(TakeReceiver(s, t))
  {
  }

  lemma SendersKeepTyped<T>(s: State<T>, a: Action<T>)
    requires Typed(s) && Registered(s) && Sends(a)
    ensures Typed(Step(s, a))
  {
    var t := a.t;
    if t in s.stage && s.stage[t].Outside? && s.latch.None? {
      if a.Send? {
        TakeReceiverKeepsTyped(s.(items := s.items + [a.value], accepted := s.accepted + [a.value]), t);
      } else if a.DropSender? && s.senders == 1 {
        TakeReceiverKeepsTyped(s.(senders := 0), t);
      }
    }
  }

  lemma SendersKeepDelivered<T>(s: State<T>, a: Action<T>)
    requires Typed(s) && Registered(s) && Delivered(s) && Sends(a)
    ensures Delivered(Step(s, a))
  {
    var s' := Step(s, a);
    assert s.latch.None? ==> forall u :: !BeingWoken(s, u);
    assert s'.registered != s.registered ==> BeingWoken(s', s.registered.value);
  }

  lemma WakesKeepTyped<T>(s: State<T>, a: Action<T>)
    requires Typed(s) && Wakes(a)
    ensures Typed(Step(s, a))
  {
  }

  lemma WakesKeepDelivered<T>(s: State<T>, a: Action<T>)
    requires Typed(s) && Delivered(s) && Wakes(a)
    ensures Delivered(Step(s, a))
  {
    var s' := Step(s, a);
    assert a.WakeTarget? && s' != s ==> forall u :: BeingWoken(s, u) ==> u == s.stage[a.t].target;
    assert !a.WakeTarget? ==> forall u :: BeingWoken(s, u) ==> BeingWoken(s', u);
  }

  lemma CallsKeepTyped<T>(s: State<T>, a: Action<T>)
    requires Typed(s) && (a.Recv? || a.Look?)
    ensures Typed(Step(s, a))
  {
  }

  lemma ParksKeepTyped<T>(s: State<T>, a: Action<T>)
    requires Typed(s) && (a.GoPark? || a.Resume?)
    ensures Typed(Step(s, a))
  {
  }

  lemma ReceiverKeepsDelivered<T>(s: State<T>, a: Action<T>)
    requires Typed(s) && Registered(s) && Delivered(s) && !Sends(a) && !Wakes(a)
    ensures Delivered(Step(s, a))
  {
    var s' := Step(s, a);
    assert forall u :: BeingWoken(s, u) ==> BeingWoken(s', u);
  }

  lemma StepKeepsInv<T>(s: State<T>, a: Action<T>)
    requires Inv(s)
    ensures Inv(Step(s, a))
  {
    StepKeepsConserved(s, a);
    StepKeepsRegistered(s, a);
    if Sends(a) {
      SendersKeepTyped(s, a);
      SendersKeepDelivered(s, a);
    } else if Wakes(a) {
      WakesKeepTyped(s, a);
      WakesKeepDelivered(s, a);
    } else {
      if a.Recv? || a.Look? {
        CallsKeepTyped(s, a);
      } else {
        ParksKeepTyped(s, a);
      }
      ReceiverKeepsDelivered(s, a);
    }
  }

  lemma {:induction false} PlayKeepsInv<T>(s: State<T>, actions: seq<Action<T>>)
    requires Inv(s)
    ensures Inv(Play(s, actions))
    decreases |actions|
  {
    if actions != [] {
      StepKeepsInv(s, actions[0]);
      PlayKeepsInv(Step(s, actions[0]), actions[1..]);
    }
  }

  // ── What every interleaving guarantees ───────────────────

  /** While the receiver exists, the values accepted are those received, then those queued, in
      order; once `recv` has said there is nothing more, no sender is left and all were received. */
  lemma NothingLost<T>(tasks: set<Task>, actions: seq<Action<T>>)
    ensures var s := Play(Start<T>(tasks), actions);
      && (s.open ==> s.accepted == s.received + s.items)
      && s.received <= s.accepted
      && (s.ended && s.open ==> s.senders == 0 && s.received == s.accepted)
  {
    PlayKeepsInv(Start<T>(tasks), actions);
    var s := Play(Start<T>(tasks), actions);
    assert s.received + [] == s.received;
  }

  /** The end is final: after it no value is accepted. */
  lemma EndIsFinal<T>(tasks: set<Task>, actions: seq<Action<T>>, a: Action<T>)
    requires Play(Start<T>(tasks), actions).ended
    ensures var s := Play(Start<T>(tasks), actions); Step(s, a).ended && Step(s, a).accepted == s.accepted
  {
    PlayKeepsInv(Start<T>(tasks), actions);
  }

  /** A receiver parked while a value is queued, or while no sender is left, is about to be woken. */
  lemma ReceiverNeverStalls<T>(tasks: set<Task>, actions: seq<Action<T>>, t: Task)
    requires var s := Play(Start<T>(tasks), actions);
      t in s.status && s.status[t].Parked? && (s.items != [] || s.senders == 0)
    ensures BeingWoken(Play(Start<T>(tasks), actions), t)
  {
    PlayKeepsInv(Start<T>(tasks), actions);
  }

  /** Whatever the run, a task goes on by a step of its own, unless it is parked or another one is
      inside the latch. */
  lemma TasksGoOn<T>(tasks: set<Task>, actions: seq<Action<T>>, t: Task) returns (a: Action<T>)
    requires var s := Play(Start<T>(tasks), actions);
      && t in s.stage && !s.stage[t].Outside? && (s.latch.None? || s.latch == Some(t))
      && t in s.status && !s.status[t].Parked?
    ensures var s := Play(Start<T>(tasks), actions);
      a.t == t && t in Step(s, a).stage && Step(s, a).stage[t] != s.stage[t]
  {
    PlayKeepsInv(Start<T>(tasks), actions);
    var s := Play(Start<T>(tasks), actions);
    a := match s.stage[t]
      case Waking(_) => WakeTarget(t)
      case Receiving | Outside => Look(t)
      case Leaving => GoPark(t)
      case Suspended => Resume(t);
  }

  /** A value sent while the receiver exists is accepted, whoever sends it; the receiver, if it
      waits, is woken for it. */
  lemma SentIsAccepted<T>(tasks: set<Task>, actions: seq<Action<T>>, t: Task, value: T)
    requires var s := Play(Start<T>(tasks), actions);
      t in s.stage && s.stage[t].Outside? && s.latch.None? && s.senders > 0 && s.open
    ensures var s := Play(Start<T>(tasks), actions); var s' := Step(s, Send(t, value));
      && s'.accepted == s.accepted + [value]
      && forall r :: r in s.stage && r in s.status && s.status[r].Parked? ==> BeingWoken(s', r)
  {
    PlayKeepsInv(Start<T>(tasks), actions);
  }

  /** The last sender dropped leaves none, and the receiver, if it waits, is woken for the end. */
  lemma LastDropEnds<T>(tasks: set<Task>, actions: seq<Action<T>>, t: Task)
    requires var s := Play(Start<T>(tasks), actions);
      t in s.stage && s.stage[t].Outside? && s.latch.None? && s.senders == 1
    ensures var s := Play(Start<T>(tasks), actions); var s' := Step(s, DropSender(t));
      && s'.senders == 0 && s'.items == s.items && s'.accepted == s.accepted
      && forall r :: r in s.stage && r in s.status && s.status[r].Parked? ==> BeingWoken(s', r)
  {
    PlayKeepsInv(Start<T>(tasks), actions);
  }

  /** `recv` gives the next value accepted and not received; nothing more once all were received and
      no sender is left; otherwise it waits. */
  lemma LookTakesNext<T>(tasks: set<Task>, actions: seq<Action<T>>, t: Task)
    requires var s := Play(Start<T>(tasks), actions); t in s.stage && s.stage[t].Receiving? && s.latch.None?
    ensures var s := Play(Start<T>(tasks), actions); var s', n := Step(s, Look(t)), |s.received|;
      && n <= |s.accepted|
      && (if n < |s.accepted| then s'.received == s.received + [s.accepted[n]] && s'.stage[t].Outside?
          else if s.senders == 0 then s'.ended && s'.received == s.received && s'.stage[t].Outside?
          else s'.stage[t].Leaving? && s'.received == s.received && s'.ended == s.ended)
  {
    PlayKeepsInv(Start<T>(tasks), actions);
    var s := Play(Start<T>(tasks), actions);
    assert s.items != [] ==> s.accepted[|s.received|] == s.items[0];
  }

  /** A sender cloned and dropped leaves the channel as it was. */
  lemma CloneThenDrop<T>(s: State<T>, t: Task)
    requires t in s.stage && t in s.status && s.stage[t].Outside? && s.latch.None? && s.senders > 0
    ensures Step(Step(s, CloneSender(t)), DropSender(t)) == s
    ensures s.senders > 1 ==> Step(Step(s, DropSender(t)), CloneSender(t)) == s
  {}
}
