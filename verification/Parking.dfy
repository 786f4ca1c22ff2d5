/** Parking and waking, as the primitives below see them: the states of a live task in the
    scheduler. An OS thread outside the scheduler behaves alike, its token being `Notified`. */
module Parking {

  type Task = nat

  datatype Status = Running | Notified | Parked | Queued

  /** The effect of a wake: the exchange that succeeds, or the load that finds nothing to do. */
  function Wake(s: Status): Status {
    match s
    case Running => Notified
    case Parked => Queued
    case _ => s
  }

  /** The effect of parking: refused when woken meanwhile. */
  function Park(s: Status): Status {
    match s
    case Running => Parked
    case Notified => Queued
    case _ => s
  }

  /** An attempt to wait: its ticket, and the task to wake. */
  datatype Waiter = Waiter(ticket: nat, task: Task)

  function Without(ws: seq<Waiter>, ticket: nat): seq<Waiter> {
    if ws == [] then []
    else (if ws[0].ticket != ticket then [ws[0]] else []) + Without(ws[1..], ticket)
  }

  predicate Distinct(ws: seq<Waiter>) { forall i, j :: 0 <= i < j < |ws| ==> ws[i] != ws[j] }

  lemma {:induction false} WithoutMembers(ws: seq<Waiter>, ticket: nat)
    requires Distinct(ws)
    ensures Distinct(Without(ws, ticket))
    ensures forall w :: w in Without(ws, ticket) <==> w in ws && w.ticket != ticket
  {
    if ws != [] {
      WithoutMembers(ws[1..], ticket);
      assert ws[0] !in ws[1..];
      var rest := Without(ws[1..], ticket);
      assert forall i :: 0 <= i < |rest| ==> rest[i] in rest;
    }
  }
}
