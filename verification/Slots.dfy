/** Slots: at most so many calls in flight, the others queued and let in first come, first served. */
module Slots {
  datatype SlotState = SlotState(max: nat, inFlight: nat, queue: seq<nat>, nextTicket: nat)

  function Opened(max: nat): SlotState { SlotState(if max < 1 then 1 else max, 0, [], 0) }

  function Enqueued(s: SlotState): SlotState {
    s.(queue := s.queue + [s.nextTicket], nextTicket := s.nextTicket + 1)
  }

  predicate MayEnter(s: SlotState, ticket: nat) {
    s.inFlight < s.max && s.queue != [] && s.queue[0] == ticket
  }

  function Entered(s: SlotState, ticket: nat): SlotState {
    if MayEnter(s, ticket) then s.(inFlight := s.inFlight + 1, queue := s.queue[1..]) else s
  }

  function Without(queue: seq<nat>, ticket: nat): (r: seq<nat>)
    ensures forall t :: t in r <==> t in queue && t != ticket
  {
    if queue == [] then []
    else (if queue[0] != ticket then [queue[0]] else []) + Without(queue[1..], ticket)
  }

  function Left(s: SlotState, ticket: nat): SlotState { s.(queue := Without(s.queue, ticket)) }

  function Released(s: SlotState): SlotState {
    s.(inFlight := if s.inFlight > 0 then s.inFlight - 1 else 0)
  }

  predicate Increasing(queue: seq<nat>) { forall i, j :: 0 <= i < j < |queue| ==> queue[i] < queue[j] }

  predicate Below(queue: seq<nat>, ticket: nat) { forall i :: 0 <= i < |queue| ==> queue[i] < ticket }

  /** Tickets queue in the order they were given. */
  predicate InOrder(s: SlotState) {
    Increasing(s.queue) && Below(s.queue, s.nextTicket) && s.inFlight <= s.max
  }

  lemma {:induction false} WithoutKeepsOrder(queue: seq<nat>, ticket: nat, bound: nat)
    requires Increasing(queue) && Below(queue, bound)
    ensures Increasing(Without(queue, ticket)) && Below(Without(queue, ticket), bound)
  {
    if queue != [] {
      var rest := Without(queue[1..], ticket);
      WithoutKeepsOrder(queue[1..], ticket, bound);
      forall i | 0 <= i < |rest| ensures queue[0] < rest[i] {
        assert rest[i] in rest;
        assert rest[i] in queue[1..];
      }
    }
  }

  /** The front of the queue is its least ticket. */
  lemma FrontIsLeast(queue: seq<nat>, ticket: nat)
    requires Increasing(queue)
    ensures queue != [] && queue[0] == ticket <==> ticket in queue && forall t :: t in queue ==> ticket <= t
  {
    if queue != [] {
      assert queue[0] in queue;
    }
  }

  class Queue {
    const max: nat
    var inFlight: nat
    var queue: seq<nat>
    var nextTicket: nat

    ghost function State(): SlotState
      reads this
    {
      SlotState(max, inFlight, queue, nextTicket)
    }

    constructor (max: nat)
      ensures State() == Opened(max) && InOrder(State()) && inFlight == 0 && queue == []
      ensures this.max >= 1 && (max >= 1 ==> this.max == max) && (max == 0 ==> this.max == 1)
    {
      this.max := if max < 1 then 1 else max;
      inFlight, queue, nextTicket := 0, [], 0;
    }

    /** Joins the queue, last. */
    method Enqueue() returns (ticket: nat)
      requires InOrder(State())
      modifies this
      ensures State() == Enqueued(old(State())) && InOrder(State())
      ensures ticket == old(nextTicket) && queue == old(queue) + [ticket] && ticket !in old(queue)
    {
      ticket := nextTicket;
      nextTicket := nextTicket + 1;
      queue := queue + [ticket];
    }

    /** Takes a slot if one is free and no earlier ticket waits. */
    method TryEnter(ticket: nat) returns (entered: bool)
      requires InOrder(State())
      modifies this
      ensures State() == Entered(old(State()), ticket) && InOrder(State())
      ensures entered <==> old(inFlight) < max && ticket in old(queue) && forall t :: t in old(queue) ==> ticket <= t
      ensures if entered then inFlight == old(inFlight) + 1 && old(queue) == [ticket] + queue
              else State() == old(State())
    {
      FrontIsLeast(queue, ticket);
      if inFlight < max && |queue| > 0 && queue[0] == ticket {
        queue := queue[1..];
        inFlight := inFlight + 1;
        return true;
      }
      return false;
    }

    /** Leaves the queue without a slot; the others keep their places. */
    method Leave(ticket: nat)
      requires InOrder(State())
      modifies this`queue
      ensures State() == Left(old(State()), ticket) && InOrder(State())
      ensures forall t :: t in queue <==> t in old(queue) && t != ticket
    {
      WithoutKeepsOrder(queue, ticket, nextTicket);
      queue := Without(queue, ticket);
    }

    /** Gives back the slot of a call: the first waiting ticket, if any, can now enter. With an
        admission before it, what is left of that admission is its ticket gone from the queue. */
    method Release()
      modifies this`inFlight
      ensures State() == Released(old(State())) && (InOrder(old(State())) ==> InOrder(State()))
      ensures inFlight == old(inFlight) - (if old(inFlight) > 0 then 1 else 0)
      ensures InOrder(old(State())) && max >= 1 ==>
        forall ticket :: MayEnter(State(), ticket) <==> queue != [] && queue[0] == ticket
      ensures forall s, ticket :: MayEnter(s, ticket) && old(State()) == Entered(s, ticket) ==>
        State() == s.(queue := s.queue[1..])
    {
      if inFlight > 0 {
        inFlight := inFlight - 1;
      }
    }
  }
}
