/** The limiter: calls queue for a slot, book a turn, wait for it and for the end of a pause; a
    cancelled call gives back what it took. Calls interleave freely, section by section under
    the limiter's lock; a wait may end early, and the clock only goes forward. */
module Limiter {
  import opened Wrappers
  import opened Rates
  import opened TokenBucket
  import opened Slots

  type Call = nat

  datatype Stage =
    | Queued(ticket: nat)
    | Admitted                                   // holds a slot, if slots are limited
    | Booking(turn: Option<Turn>)                // waits for its turn
    | Pausing(turn: Option<Turn>)                // its turn has come
    | Looking(turn: Option<Turn>, now: Instant)  // read the clock, about to look at the pause
    | GivingBack(turn: Option<Turn>)             // cancelled, about to refund
    | Releasing                                  // refunded, about to give its slot back
    | Granted(turn: Option<Turn>, now: Instant, pause: Option<Instant>)
    | Done(turn: Option<Turn>)                   // the permit was dropped

  datatype BucketState = BucketState(interval: nat, burst: nat, next: Option<Instant>)

  datatype State = State(
    slots: Option<SlotState>,
    bucket: Option<BucketState>,
    paused: Option<Instant>,
    clock: Instant,
    calls: map<Call, Stage>,
    admitted: seq<nat>)

  datatype Action =
    | Start(c: Call)
    | TryEnter(c: Call)
    | CancelQueued(c: Call)
    | Reserve(c: Call)
    | LookAtTurn(c: Call)
    | CancelBooking(c: Call)
    | ReadClock(c: Call)
    | LookAtPause(c: Call)
    | CancelPausing(c: Call)
    | Refund(c: Call)
    | DropPermit(c: Call)
    | Pause(until: Instant)
    | Tick(elapsed: nat)

  function Later(a: Option<Instant>, b: Instant): Instant { if a.Some? && a.value > b then a.value else b }

  predicate PauseLeft(paused: Option<Instant>, now: Instant) { paused.Some? && paused.value > now }

  function Open(rate: Option<Rate>, concurrent: Option<nat>): State
    requires rate.Some? ==> rate.value.Valid()
  {
    State(if concurrent.Some? then Some(Slots.Opened(concurrent.value)) else None,
          if rate.Some? then
            Some(BucketState(rate.value.Interval(), rate.value.Burst(), None))
          else None,
          None, 0, map[], [])
  }

  /** One step; an action that is not possible changes nothing. */
  function Step(s: State, a: Action): State {
    match a
    case Pause(until) => s.(paused := Some(Later(s.paused, until)))
    case Tick(elapsed) => s.(clock := s.clock + elapsed)
    case Start(c) =>
      if c in s.calls then s
      else if s.slots.None? then s.(calls := s.calls[c := Admitted])
      else s.(slots := Some(Enqueued(s.slots.value)), calls := s.calls[c := Queued(s.slots.value.nextTicket)])
    case _ => if a.c in s.calls then CallStep(s, a, a.c, s.calls[a.c]) else s
  }

  function CallStep(s: State, a: Action, c: Call, here: Stage): State
    requires !a.Pause? && !a.Tick? && !a.Start?
  {
    match a
    case TryEnter(_) =>
      if here.Queued? && s.slots.Some? && MayEnter(s.slots.value, here.ticket) then
        s.(slots := Some(Entered(s.slots.value, here.ticket)), calls := s.calls[c := Admitted],
           admitted := s.admitted + [here.ticket])
      else s
    case CancelQueued(_) =>
      if here.Queued? && s.slots.Some? then
        s.(slots := Some(Left(s.slots.value, here.ticket)), calls := s.calls[c := Done(None)])
      else s
    case Reserve(_) =>
      if !here.Admitted? then s
      else if s.bucket.None? then s.(calls := s.calls[c := Booking(None)])
      else
        var b := s.bucket.value;
        var turn := Booked(b.interval, b.burst, b.next, Later(s.paused, s.clock));
        s.(bucket := Some(b.(next := Some(turn.after))), calls := s.calls[c := Booking(Some(turn))])
    case LookAtTurn(_) =>
      if here.Booking? && (here.turn.None? || s.clock >= here.turn.value.at) then
        s.(calls := s.calls[c := Pausing(here.turn)])
      else s
    case CancelBooking(_) =>
      if here.Booking? && here.turn.Some? then s.(calls := s.calls[c := GivingBack(here.turn)]) else s
    case ReadClock(_) =>
      if here.Pausing? then s.(calls := s.calls[c := Looking(here.turn, s.clock)]) else s
    case LookAtPause(_) =>
      if !here.Looking? then s
      else if PauseLeft(s.paused, here.now) then s.(calls := s.calls[c := Pausing(here.turn)])
      else s.(calls := s.calls[c := Granted(here.turn, here.now, s.paused)])
    case CancelPausing(_) =>
      if here.Pausing? then s.(calls := s.calls[c := GivingBack(here.turn)]) else s
    case Refund(_) =>
      if !here.GivingBack? then s
      else if here.turn.None? || s.bucket.None? then s.(calls := s.calls[c := Releasing])
      else
        var b := s.bucket.value;
        s.(bucket := Some(b.(next := Refunded(b.next, here.turn.value))), calls := s.calls[c := Releasing])
    case DropPermit(_) =>
      if !here.Releasing? && !here.Granted? then s
      else s.(slots := if s.slots.Some? then Some(Released(s.slots.value)) else None,
              calls := s.calls[c := Done(if here.Granted? then here.turn else None)])
  }

  function Play(s: State, actions: seq<Action>): State
    decreases |actions|
  {
    if actions == [] then s else Play(Step(s, actions[0]), actions[1..])
  }

  // ── Invariants ───────────────────────────────────────────

  predicate HoldsSlot(here: Stage) { !here.Queued? && !here.Done? }

  ghost function Holders(calls: map<Call, Stage>): set<Call> {
    set c | c in calls && HoldsSlot(calls[c])
  }

  /** The turn a call has booked and not given back. */
  function TurnOf(here: Stage): Option<Turn> {
    match here
    case Booking(turn) => turn
    case Pausing(turn) => turn
    case Looking(turn, _) => turn
    case GivingBack(turn) => turn
    case Granted(turn, _, _) => turn
    case Done(turn) => turn
    case _ => None
  }

  predicate HasTurn(s: State, c: Call) { c in s.calls && TurnOf(s.calls[c]).Some? }

  function TheTurn(s: State, c: Call): Turn
    requires HasTurn(s, c)
  {
    TurnOf(s.calls[c]).value
  }

  ghost predicate SlotsCounted(s: State) {
    s.slots.Some? ==> s.slots.value.inFlight == |Holders(s.calls)| <= s.slots.value.max
  }

  /** `who` tells which call has each queued ticket. */
  ghost predicate QueueKept(s: State, who: map<nat, Call>) {
    && (s.slots.None? ==> forall c :: c in s.calls ==> !s.calls[c].Queued?)
    && (s.slots.Some? ==>
         var q := s.slots.value;
         && Increasing(q.queue) && Below(q.queue, q.nextTicket)
         && (forall t :: t in q.queue ==> t in who && who[t] in s.calls && s.calls[who[t]] == Queued(t))
         && (forall c :: c in s.calls && s.calls[c].Queued? ==>
              s.calls[c].ticket in q.queue && who[s.calls[c].ticket] == c))
  }

  ghost predicate AdmittedInOrder(s: State) {
    s.slots.Some? ==>
      && Increasing(s.admitted) && Below(s.admitted, s.slots.value.nextTicket)
      && (forall i :: 0 <= i < |s.slots.value.queue| ==> Below(s.admitted, s.slots.value.queue[i]))
  }

  predicate Apart(t: Turn, u: Turn) { t.after <= u.before || u.after <= t.before }

  ghost predicate TurnsApart(s: State) {
    && (s.bucket.None? ==> forall c :: !HasTurn(s, c))
    && (forall c :: HasTurn(s, c) ==>
         && TheTurn(s, c).after == TheTurn(s, c).before + s.bucket.value.interval
         && s.bucket.value.next.Some? && TheTurn(s, c).after <= s.bucket.value.next.value)
    && (forall c, d :: HasTurn(s, c) && HasTurn(s, d) && c != d ==> Apart(TheTurn(s, c), TheTurn(s, d)))
  }

  predicate OnTime(s: State, here: Stage) {
    match here
    case Pausing(turn) => turn.Some? ==> turn.value.at <= s.clock
    case Looking(turn, now) => (turn.Some? ==> turn.value.at <= now) && now <= s.clock
    case Granted(turn, now, pause) =>
      (turn.Some? ==> turn.value.at <= now) && now <= s.clock && !PauseLeft(pause, now)
    case _ => true
  }

  ghost predicate Timely(s: State) { forall c :: c in s.calls ==> OnTime(s, s.calls[c]) }

  ghost predicate Inv(s: State, who: map<nat, Call>) {
    SlotsCounted(s) && QueueKept(s, who) && AdmittedInOrder(s) && TurnsApart(s) && Timely(s)
  }

  function NextWho(s: State, who: map<nat, Call>, a: Action): map<nat, Call> {
    if a.Start? && a.c !in s.calls && s.slots.Some? then who[s.slots.value.nextTicket := a.c] else who
  }

  lemma StepKeepsTimely(s: State, a: Action)
    requires Timely(s)
    ensures Timely(Step(s, a))
  {
    var s' := Step(s, a);
    forall c | c in s'.calls ensures OnTime(s', s'.calls[c]) {
      assert c in s.calls ==> OnTime(s, s.calls[c]);
    }
  }

  lemma HoldersUpdate(calls: map<Call, Stage>, c: Call, here: Stage)
    ensures |Holders(calls[c := here])|
         == |Holders(calls)| - (if c in calls && HoldsSlot(calls[c]) then 1 else 0) + (if HoldsSlot(here) then 1 else 0)
  {
    var after := Holders(calls[c := here]);
    assert after == if HoldsSlot(here) then Holders(calls) + {c} else Holders(calls) - {c};
  }

  lemma StepKeepsCount(s: State, a: Action)
    requires SlotsCounted(s)
    ensures SlotsCounted(Step(s, a))
  {
    var s' := Step(s, a);
    if !a.Pause? && !a.Tick? && s' != s {
      assert s'.calls == s.calls[a.c := s'.calls[a.c]];
      HoldersUpdate(s.calls, a.c, s'.calls[a.c]);
      if a.c in s.calls && HoldsSlot(s.calls[a.c]) {
        assert a.c in Holders(s.calls);
      }
    }
  }

  lemma StartKeepsQueue(s: State, who: map<nat, Call>, c: Call)
    requires QueueKept(s, who)
    ensures QueueKept(Step(s, Start(c)), NextWho(s, who, Start(c)))
  {
  }

  lemma EnterTakesFirst(s: State, c: Call)
    requires Step(s, TryEnter(c)) != s
    ensures c in s.calls && s.calls[c].Queued? && s.slots.Some? && s.slots.value.queue != []
    ensures var q, s' := s.slots.value, Step(s, TryEnter(c));
      && s' == s.(slots := s'.slots, calls := s.calls[c := Admitted], admitted := s.admitted + [q.queue[0]])
      && s.calls[c] == Queued(q.queue[0])
      && s'.slots == Some(q.(inFlight := q.inFlight + 1, queue := q.queue[1..]))
  {}

  lemma EnterKeepsQueue(s: State, who: map<nat, Call>, c: Call)
    requires QueueKept(s, who) && AdmittedInOrder(s)
    ensures QueueKept(Step(s, TryEnter(c)), who) && AdmittedInOrder(Step(s, TryEnter(c)))
  {
    var s' := Step(s, TryEnter(c));
    if s' != s {
      EnterTakesFirst(s, c);
      hide Step;
      assert s.slots.value.queue == [s.slots.value.queue[0]] + s'.slots.value.queue;
      assert Below(s.admitted, s.slots.value.queue[0]);
    }
  }

  lemma LeaveKeepsQueue(s: State, who: map<nat, Call>, c: Call)
    requires QueueKept(s, who) && AdmittedInOrder(s)
    ensures QueueKept(Step(s, CancelQueued(c)), who) && AdmittedInOrder(Step(s, CancelQueued(c)))
  {
    var s' := Step(s, CancelQueued(c));
    if s' != s {
      var before, after := s.slots.value, s'.slots.value;
      WithoutKeepsOrder(before.queue, s.calls[c].ticket, before.nextTicket);
      forall i | 0 <= i < |after.queue| ensures Below(s.admitted, after.queue[i]) {
        assert after.queue[i] in after.queue;
        var j :| 0 <= j < |before.queue| && before.queue[j] == after.queue[i];
      }
    }
  }

  lemma StartKeepsOrder(s: State, c: Call)
    requires AdmittedInOrder(s)
    ensures AdmittedInOrder(Step(s, Start(c)))
  {
  }

  predicate ChangesQueue(a: Action) { a.Start? || a.TryEnter? || a.CancelQueued? }

  lemma OthersKeepQueue(s: State, who: map<nat, Call>, a: Action)
    requires QueueKept(s, who) && AdmittedInOrder(s) && !ChangesQueue(a)
    ensures QueueKept(Step(s, a), who) && AdmittedInOrder(Step(s, a))
  {
    var s' := Step(s, a);
    assert s'.admitted == s.admitted;
    assert s'.slots.Some? <==> s.slots.Some?;
    if s.slots.Some? {
      assert s'.slots.value.queue == s.slots.value.queue && s'.slots.value.nextTicket == s.slots.value.nextTicket;
    }
    assert forall c :: c in s'.calls ==> c in s.calls && (s.calls[c].Queued? || s'.calls[c].Queued? ==> s'.calls[c] == s.calls[c]);
  }

  lemma StepKeepsTurns(s: State, a: Action)
    requires TurnsApart(s)
    ensures TurnsApart(Step(s, a))
  {
    var s' := Step(s, a);
    if a.Reserve? {
      ReserveKeepsTurns(s, a.c);
    } else if a.Refund? {
      RefundKeepsTurns(s, a.c);
    } else {
      assert s'.bucket == s.bucket;
      assert forall d :: HasTurn(s', d) ==> HasTurn(s, d) && TheTurn(s', d) == TheTurn(s, d);
    }
  }

  lemma ReserveKeepsTurns(s: State, c: Call)
    requires TurnsApart(s)
    ensures TurnsApart(Step(s, Reserve(c)))
  {
    var s' := Step(s, Reserve(c));
    assert forall d :: HasTurn(s', d) && d != c ==> HasTurn(s, d) && TheTurn(s', d) == TheTurn(s, d);
  }

  lemma RefundKeepsTurns(s: State, c: Call)
    requires TurnsApart(s)
    ensures TurnsApart(Step(s, Refund(c)))
  {
    var s' := Step(s, Refund(c));
    if s' != s {
      assert forall d :: HasTurn(s', d) ==> HasTurn(s, d) && d != c && TheTurn(s', d) == TheTurn(s, d);
      assert HasTurn(s, c) ==> forall d :: HasTurn(s', d) ==> Apart(TheTurn(s, c), TheTurn(s, d));
    }
  }

  lemma StepKeepsInv(s: State, who: map<nat, Call>, a: Action)
    requires Inv(s, who)
    ensures Inv(Step(s, a), NextWho(s, who, a))
  {
    StepKeepsTimely(s, a);
    StepKeepsCount(s, a);
    StepKeepsTurns(s, a);
    match a
    case Start(c) =>
      StartKeepsQueue(s, who, c);
      StartKeepsOrder(s, c);
    case TryEnter(c) => EnterKeepsQueue(s, who, c);
    case CancelQueued(c) => LeaveKeepsQueue(s, who, c);
    case _ => OthersKeepQueue(s, who, a);
  }

  lemma {:induction false} PlayKeepsInv(s: State, who: map<nat, Call>, actions: seq<Action>) returns (end: map<nat, Call>)
    requires Inv(s, who)
    ensures Inv(Play(s, actions), end)
    decreases |actions|
  {
    if actions == [] {
      end := who;
    } else {
      StepKeepsInv(s, who, actions[0]);
      end := PlayKeepsInv(Step(s, actions[0]), NextWho(s, who, actions[0]), actions[1..]);
    }
  }

  lemma {:induction false} SlotsStay(s: State, actions: seq<Action>)
    ensures Play(s, actions).slots.Some? <==> s.slots.Some?
    decreases |actions|
  {
    if actions != [] {
      assert Step(s, actions[0]).slots.Some? <==> s.slots.Some?;
      SlotsStay(Step(s, actions[0]), actions[1..]);
    }
  }

  lemma OpenInv(rate: Option<Rate>, concurrent: Option<nat>)
    requires rate.Some? ==> rate.value.Valid()
    ensures Inv(Open(rate, concurrent), map[])
  {
    assert Holders(map[]) == {};
  }

  // ── What every interleaving guarantees ───────────────────

  /** The slots in use are exactly those of the calls between admission and the end of their
      permit, never more than the limit. */
  lemma SlotsAreCounted(rate: Option<Rate>, concurrent: Option<nat>, actions: seq<Action>)
    requires concurrent.Some? && (rate.Some? ==> rate.value.Valid())
    ensures var s := Play(Open(rate, concurrent), actions);
      s.slots.Some? && s.slots.value.inFlight == |Holders(s.calls)| <= s.slots.value.max
  {
    SlotsStay(Open(rate, concurrent), actions);
    OpenInv(rate, concurrent);
    var who := PlayKeepsInv(Open(rate, concurrent), map[], actions);
  }

  /** The queue holds, in order, exactly the tickets of the calls still waiting for a slot; those
      admitted were admitted in ticket order, before every one still waiting. */
  lemma FirstComeFirstServed(rate: Option<Rate>, concurrent: Option<nat>, actions: seq<Action>)
    requires concurrent.Some? && (rate.Some? ==> rate.value.Valid())
    ensures var s := Play(Open(rate, concurrent), actions);
      s.slots.Some?
        && Increasing(s.slots.value.queue) && Increasing(s.admitted)
        && (forall t :: t in s.slots.value.queue <==> exists c :: c in s.calls && s.calls[c] == Queued(t))
        && (forall i, j :: 0 <= i < |s.admitted| && 0 <= j < |s.slots.value.queue| ==>
             s.admitted[i] < s.slots.value.queue[j])
  {
    SlotsStay(Open(rate, concurrent), actions);
    OpenInv(rate, concurrent);
    var who := PlayKeepsInv(Open(rate, concurrent), map[], actions);
  }

  /** Whatever is cancelled, no two calls hold the same turn: those booked and not given back
      occupy disjoint intervals, before the next booking. */
  lemma NoTurnTwice(rate: Option<Rate>, concurrent: Option<nat>, actions: seq<Action>, c: Call, d: Call)
    requires rate.Some? ==> rate.value.Valid()
    requires var s := Play(Open(rate, concurrent), actions); HasTurn(s, c) && HasTurn(s, d) && c != d
    ensures var s := Play(Open(rate, concurrent), actions); Apart(TheTurn(s, c), TheTurn(s, d))
  {
    OpenInv(rate, concurrent);
    var who := PlayKeepsInv(Open(rate, concurrent), map[], actions);
  }

  /** A permit is granted only once the clock has reached its turn, and no pause was left when the
      limiter last looked. */
  lemma GrantedOnTime(rate: Option<Rate>, concurrent: Option<nat>, actions: seq<Action>, c: Call)
    requires rate.Some? ==> rate.value.Valid()
    requires var s := Play(Open(rate, concurrent), actions); c in s.calls && s.calls[c].Granted?
    ensures var s := Play(Open(rate, concurrent), actions); var g := s.calls[c];
      (g.turn.Some? ==> g.turn.value.at <= g.now) && g.now <= s.clock && !PauseLeft(g.pause, g.now)
  {
    OpenInv(rate, concurrent);
    var who := PlayKeepsInv(Open(rate, concurrent), map[], actions);
    assert OnTime(Play(Open(rate, concurrent), actions), Play(Open(rate, concurrent), actions).calls[c]);
  }

  /** The turn of a call is not to be given back, or not any more. */
  predicate Settled(s: State, c: Call) {
    c in s.calls && (s.calls[c].Releasing? || s.calls[c].Granted? || s.calls[c].Done?)
  }

  lemma {:induction false} StaysSettled(s: State, c: Call, actions: seq<Action>)
    requires Settled(s, c)
    ensures Settled(Play(s, actions), c)
    decreases |actions|
  {
    if actions != [] {
      assert Settled(Step(s, actions[0]), c);
      StaysSettled(Step(s, actions[0]), c, actions[1..]);
    }
  }

  /** A call gives its turn back once: whatever happens after, a second time has no effect. */
  lemma RefundsOnce(s: State, c: Call, actions: seq<Action>)
    requires c in s.calls && s.calls[c].GivingBack?
    ensures var end := Play(Step(s, Refund(c)), actions); Step(end, Refund(c)) == end
  {
    StaysSettled(Step(s, Refund(c)), c, actions);
  }

  // ── Pauses ───────────────────────────────────────────────

  lemma {:induction false} PlayLast(s: State, actions: seq<Action>, a: Action)
    ensures Play(s, actions + [a]) == Step(Play(s, actions), a)
    decreases |actions|
  {
    if actions == [] {
      assert Play(s, [a]) == Play(Step(s, a), []);
    } else {
      assert (actions + [a])[1..] == actions[1..] + [a];
      PlayLast(Step(s, actions[0]), actions[1..], a);
    }
  }

  /** `t` is not before any pause ordered in `actions` ends. */
  ghost predicate AfterPauses(actions: seq<Action>, t: Instant) {
    forall i :: 0 <= i < |actions| && actions[i].Pause? ==> actions[i].until <= t
  }

  /** No pause ends later than the one remembered, and it was ordered. */
  lemma {:induction false} LastPauseKept(s: State, actions: seq<Action>, t: Instant)
    requires s.paused.None?
    ensures AfterPauses(actions, t) <==> !PauseLeft(Play(s, actions).paused, t)
    decreases |actions|
  {
    if actions != [] {
      var before, a := actions[..|actions| - 1], actions[|actions| - 1];
      assert actions == before + [a];
      LastPauseKept(s, before, t);
      PlayLast(s, before, a);
      assert AfterPauses(actions, t) <==> AfterPauses(before, t) && (a.Pause? ==> a.until <= t);
    }
  }

  /** A call whose turn has come, and which read the clock, is let through if and only if all the
      pauses ordered so far are over; otherwise it waits again. */
  lemma LookDecides(rate: Option<Rate>, concurrent: Option<nat>, actions: seq<Action>, c: Call)
    requires rate.Some? ==> rate.value.Valid()
    requires var s := Play(Open(rate, concurrent), actions); c in s.calls && s.calls[c].Looking?
    ensures var s := Play(Open(rate, concurrent), actions); var here := s.calls[c];
      Step(s, LookAtPause(c)).calls[c] ==
        if AfterPauses(actions, here.now) then Granted(here.turn, here.now, s.paused) else Pausing(here.turn)
  {
    LastPauseKept(Open(rate, concurrent), actions, Play(Open(rate, concurrent), actions).calls[c].now);
  }

  /** The actions until the look that granted the permit of `c`, read at `now`. */
  ghost predicate GrantedAfter(rate: Option<Rate>, concurrent: Option<nat>, actions: seq<Action>, k: nat, c: Call,
                               now: Instant)
    requires rate.Some? ==> rate.value.Valid()
  {
    && k < |actions| && actions[k] == LookAtPause(c)
    && var s := Play(Open(rate, concurrent), actions[..k]);
       c in s.calls && s.calls[c].Looking? && s.calls[c].now == now
  }

  /** A permit is granted at an instant no earlier than the end of every pause ordered before its
      last look. */
  lemma {:induction false} NoCallDuringPause(rate: Option<Rate>, concurrent: Option<nat>, actions: seq<Action>, c: Call)
    returns (k: nat)
    requires rate.Some? ==> rate.value.Valid()
    requires var s := Play(Open(rate, concurrent), actions); c in s.calls && s.calls[c].Granted?
    ensures var now := Play(Open(rate, concurrent), actions).calls[c].now;
      GrantedAfter(rate, concurrent, actions, k, c, now) && AfterPauses(actions[..k], now)
    decreases |actions|
  {
    var last := |actions| - 1;
    var before, a := actions[..last], actions[last];
    var s := Play(Open(rate, concurrent), before);
    assert actions == before + [a];
    PlayLast(Open(rate, concurrent), before, a);
    if a == LookAtPause(c) && c in s.calls && s.calls[c].Looking? {
      k := last;
      LookDecides(rate, concurrent, before, c);
    } else {
      assert c in s.calls && s.calls[c] == Step(s, a).calls[c];
      k := NoCallDuringPause(rate, concurrent, before, c);
      assert actions[..k] == before[..k];
    }
  }

  /** A turn is booked after every pause ordered before, and never in the past. */
  lemma BookedAfterPauses(rate: Option<Rate>, concurrent: Option<nat>, actions: seq<Action>, c: Call)
    requires rate.Some? && rate.value.Valid()
    requires var s := Play(Open(rate, concurrent), actions); c in s.calls && s.calls[c].Admitted?
    ensures var s := Play(Open(rate, concurrent), actions); var here := Step(s, Reserve(c)).calls[c];
      here.Booking? && here.turn.Some? && here.turn.value.at >= s.clock && AfterPauses(actions, here.turn.value.at)
  {
    BucketStays(Open(rate, concurrent), actions);
    var s := Play(Open(rate, concurrent), actions);
    LastPauseKept(Open(rate, concurrent), actions, Step(s, Reserve(c)).calls[c].turn.value.at);
  }

  lemma {:induction false} BucketStays(s: State, actions: seq<Action>)
    ensures Play(s, actions).bucket.Some? <==> s.bucket.Some?
    decreases |actions|
  {
    if actions != [] {
      assert Step(s, actions[0]).bucket.Some? <==> s.bucket.Some?;
      BucketStays(Step(s, actions[0]), actions[1..]);
    }
  }

  // ── What a call does by itself ───────────────────────────

  /** A call waiting for a slot gets it as soon as one is free and no earlier call waits, not
      before. */
  lemma EntersInTurn(rate: Option<Rate>, concurrent: Option<nat>, actions: seq<Action>, c: Call)
    requires concurrent.Some? && (rate.Some? ==> rate.value.Valid())
    requires var s := Play(Open(rate, concurrent), actions); c in s.calls && s.calls[c].Queued?
    ensures var s := Play(Open(rate, concurrent), actions);
      && s.slots.Some?
      && (Step(s, TryEnter(c)).calls[c].Admitted? <==>
            && |Holders(s.calls)| < s.slots.value.max
            && forall d :: d in s.calls && s.calls[d].Queued? ==> s.calls[c].ticket <= s.calls[d].ticket)
  {
    SlotsStay(Open(rate, concurrent), actions);
    OpenInv(rate, concurrent);
    var who := PlayKeepsInv(Open(rate, concurrent), map[], actions);
    var s := Play(Open(rate, concurrent), actions);
    var q, ticket := s.slots.value.queue, s.calls[c].ticket;
    FrontIsLeast(q, ticket);
    if ticket in q && forall d :: d in s.calls && s.calls[d].Queued? ==> ticket <= s.calls[d].ticket {
      forall t | t in q ensures ticket <= t {
        assert s.calls[who[t]] == Queued(t);
      }
    }
  }

  lemma PlayTwo(s: State, a: Action, b: Action)
    ensures Play(s, [a, b]) == Step(Step(s, a), b)
  {
    assert [a, b] == [a] + [b];
    PlayLast(s, [a], b);
    PlayLast(s, [], a);
    assert [] + [a] == [a];
  }

  lemma PlayThree(s: State, a: Action, b: Action, c: Action)
    ensures Play(s, [a, b, c]) == Step(Step(Step(s, a), b), c)
  {
    assert [a, b, c] == [a, b] + [c];
    PlayLast(s, [a, b], c);
    PlayTwo(s, a, b);
  }

  /** Undisturbed, a call that has booked gets its permit as soon as its turn has come and the pause
      is over, not before. */
  lemma GrantedInTime(s: State, c: Call, elapsed: nat)
    requires c in s.calls && s.calls[c].Booking?
    ensures var turn, end := s.calls[c].turn, Step(Play(s, [Tick(elapsed), LookAtTurn(c), ReadClock(c)]), LookAtPause(c));
      && c in end.calls && end.clock == s.clock + elapsed
      && (end.calls[c].Granted? <==> (turn.Some? ==> turn.value.at <= end.clock) && !PauseLeft(s.paused, end.clock))
  {
    hide Play;
    PlayThree(s, Tick(elapsed), LookAtTurn(c), ReadClock(c));
  }

  /** A call cancelled while it waits in the queue leaves it. */
  lemma CancelledInQueue(s: State, c: Call)
    requires c in s.calls && s.calls[c].Queued? && s.slots.Some?
    ensures var end := Step(s, CancelQueued(c));
      && end.calls == s.calls[c := Done(None)] && end.bucket == s.bucket
      && s.calls[c].ticket !in end.slots.value.queue && end.slots.value.inFlight == s.slots.value.inFlight
  {}

  lemma CancelledState(s: State, c: Call)
    requires c in s.calls && s.calls[c].Admitted? && s.bucket.Some?
    ensures var b := s.bucket.value;
      var turn := Booked(b.interval, b.burst, b.next, Later(s.paused, s.clock));
      Play(Step(s, Reserve(c)), [CancelBooking(c), Refund(c), DropPermit(c)]) ==
        s.(calls := s.calls[c := Done(None)], slots := if s.slots.Some? then Some(Released(s.slots.value)) else None,
           bucket := Some(b.(next := Refunded(Some(turn.after), turn))))
  {
    hide Play, Booked, Refunded, Released;
    PlayThree(Step(s, Reserve(c)), CancelBooking(c), Refund(c), DropPermit(c));
  }

  /** A call cancelled after it booked gives its slot back; if nobody booked after it, later calls
      get the turns they would have got without it. */
  lemma CancelledLeavesNoTrace(s: State, c: Call, asks: seq<Instant>)
    requires c in s.calls && s.calls[c].Admitted? && s.bucket.Some?
    requires forall i :: 0 <= i < |asks| ==> Later(s.paused, s.clock) <= asks[i]
    ensures var end, b := Play(Step(s, Reserve(c)), [CancelBooking(c), Refund(c), DropPermit(c)]), s.bucket.value;
      && end.calls == s.calls[c := Done(None)]
      && (s.slots.Some? ==> end.slots == Some(Released(s.slots.value)))
      && end.bucket.Some?
      && AskAll(b.interval, b.burst, end.bucket.value.next, asks) == AskAll(b.interval, b.burst, b.next, asks)
  {
    var b := s.bucket.value;
    CancelledState(s, c);
    hide Play, Step;
    RefundLeavesNoTrace(b.interval, b.burst, b.next, Later(s.paused, s.clock), asks);
  }

  /** Cancelled while it waits for the end of a pause, it gives back what it would have given back
      while it waited for its turn. */
  lemma CancelledInPause(s: State, c: Call)
    requires c in s.calls && s.calls[c].Pausing? && s.calls[c].turn.Some?
    ensures Step(s, CancelPausing(c)) == Step(s.(calls := s.calls[c := Booking(s.calls[c].turn)]), CancelBooking(c))
  {}
}
