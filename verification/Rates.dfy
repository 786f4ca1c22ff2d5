/** A rate: so many calls per period. Durations and instants are whole nanoseconds. */
module Rates {
  import opened Wrappers

  const NANOS_PER_SECOND := 1_000_000_000
  const MAX_COUNT := 0xFFFF_FFFF
  const MAX_SECONDS := 366.0 * 86_400.0

  datatype Rate = Rate(count: nat, period: nat) {
    ghost predicate Valid() { 1 <= count <= MAX_COUNT }

    /** The time between two calls once the bucket is empty. */
    function Interval(): (i: nat)
      requires count >= 1
      ensures i * count <= period < i * count + count
    {
      period / count
    }

    /** How far ahead of now a bucket may be booked: all the intervals of a period but one. */
    function Burst(): nat
      requires count >= 1
    {
      Interval() * (count - 1)
    }
  }

  datatype RateError = NoCalls | TooManyCalls | EmptyPeriod | LongPeriod

  /** A number of seconds to the nearest nanosecond. */
  function Nanos(seconds: real): nat
    requires seconds >= 0.0
  {
    (seconds * NANOS_PER_SECOND as real + 0.5).Floor
  }

  function NewRate(count: int, seconds: real): (r: Result<Rate, RateError>)
    ensures r.Ok? <==> 1 <= count <= MAX_COUNT && 0.0 < seconds <= MAX_SECONDS
    ensures r.Ok? ==> r.value.Valid() && r.value.count == count
    ensures r.Ok? ==>
      -0.5 <= seconds * NANOS_PER_SECOND as real - r.value.period as real < 0.5
  {
    if count < 1 then Err(NoCalls)
    else if count > MAX_COUNT then Err(TooManyCalls)
    else if seconds <= 0.0 then Err(EmptyPeriod)
    else if seconds > MAX_SECONDS then Err(LongPeriod)
    else Ok(Rate(count, Nanos(seconds)))
  }
}
