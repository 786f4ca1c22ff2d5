/** A token bucket kept as the instant it is next empty (the generic cell rate algorithm), and
    the refund of turns that were booked but not taken. */
module TokenBucket {
  import opened Wrappers
  import opened Rates

  type Instant = nat

  /** A call's booking: when it may go, and the bucket's next instant before and after it. */
  datatype Turn = Turn(at: Instant, before: Instant, after: Instant)

  function Max(a: int, b: int): int { if a > b then a else b }

  function CheckedSub(t: Instant, d: nat): Option<Instant> { if d <= t then Some(t - d) else None }

  /** The turn a reservation at `now` books. */
  function Booked(interval: nat, burst: nat, next: Option<Instant>, now: Instant): Turn {
    var start := Max(if next.Some? then next.value else now, now);
    var at := match CheckedSub(start, burst) case None => now case Some(earliest) => Max(earliest, now);
    Turn(at, start, start + interval)
  }

  function Refunded(next: Option<Instant>, turn: Turn): Option<Instant> {
    if next == Some(turn.after) then Some(turn.before) else next
  }

  class Bucket {
    const interval: nat
    const burst: nat
    /** The theoretical arrival of the next call; `None` while full. */
    var next: Option<Instant>

    constructor (rate: Rate)
      requires rate.Valid()
      ensures interval == rate.Interval() && burst == rate.Burst() && next == None
    {
      interval := rate.Interval();
      burst := rate.Burst();
      next := None;
    }

    /** Books a call asked at `now`: it may go at the latest of `now` and the instant its token is
        due, and no other booking shares its interval. */
    method Reserve(now: Instant) returns (turn: Turn)
      modifies this`next
      ensures turn == Booked(interval, burst, old(next), now) && next == Some(turn.after)
      ensures now <= turn.at <= turn.before && turn.before - burst <= turn.at
      ensures turn.after == turn.before + interval && (old(next).Some? ==> old(next).value <= turn.before)
    {
      var start := Max(if next.Some? then next.value else now, now);
      var earliest := CheckedSub(start, burst);
      var at := now;
      if earliest.Some? {
        at := Max(earliest.value, now);
      }
      next := Some(start + interval);
      turn := Turn(at, start, start + interval);
    }

    /** Gives back `turn`: the last reservation is undone, every later one being granted as if it had
        not been made; a turn with one booked after it stays spent. */
    method Refund(turn: Turn)
      modifies this`next
      ensures next == Refunded(old(next), turn)
      ensures old(next) == Some(turn.after) ==> Undone(interval, burst, turn, next)
      ensures forall last: Turn ::
        turn.after <= last.before < last.after && old(next) == Some(last.after) ==> next == old(next)
    {
      if next == Some(turn.after) {
        RefundUndoes(interval, burst, turn);
        next := Some(turn.before);
      }
    }
  }

  /** From `next`, calls are granted as from any bucket in which `turn` would have been booked. */
  ghost predicate Undone(interval: nat, burst: nat, turn: Turn, next: Option<Instant>) {
    forall before, asked, now :: turn == Booked(interval, burst, before, asked) && asked <= now ==>
      Booked(interval, burst, next, now) == Booked(interval, burst, before, now)
  }

  lemma RefundUndoes(interval: nat, burst: nat, turn: Turn)
    ensures Undone(interval, burst, turn, Some(turn.before))
  {}

  // ── Runs of reservations and refunds ─────────────────────

  /** `Cancel(i)`: the call holding the `i`th outstanding turn is cancelled, and refunds it. */
  datatype Event = Ask(now: Instant) | Cancel(i: nat)

  /** The bucket, and the turns booked and not cancelled, in booking order. */
  datatype Ledger = Ledger(interval: nat, burst: nat, next: Option<Instant>, turns: seq<Turn>)

  function Apply(l: Ledger, e: Event): Ledger {
    match e
    case Ask(now) =>
      var turn := Booked(l.interval, l.burst, l.next, now);
      l.(next := Some(turn.after), turns := l.turns + [turn])
    case Cancel(i) =>
      if i >= |l.turns| then l
      else l.(next := Refunded(l.next, l.turns[i]), turns := l.turns[..i] + l.turns[i + 1..])
  }

  function Run(l: Ledger, events: seq<Event>): Ledger
    decreases |events|
  {
    if events == [] then l else Run(Apply(l, events[0]), events[1..])
  }

  function Opened(rate: Rate): Ledger
    requires rate.Valid()
  {
    Ledger(rate.Interval(), rate.Burst(), None, [])
  }

  /** An outstanding turn: it took one interval, before the next booking, and goes at most a burst
      earlier than the interval starts. */
  predicate Fits(l: Ledger, t: Turn) {
    && t.after == t.before + l.interval
    && t.before - l.burst <= t.at <= t.before
    && l.next.Some? && t.after <= l.next.value
  }

  ghost predicate Sound(l: Ledger) {
    && (forall i :: 0 <= i < |l.turns| ==> Fits(l, l.turns[i]))
    && (forall i, j :: 0 <= i < j < |l.turns| ==> l.turns[i].after <= l.turns[j].before)
  }

  lemma ApplyKeepsSound(l: Ledger, e: Event)
    requires Sound(l)
    ensures Sound(Apply(l, e))
  {
    if e.Cancel? && e.i < |l.turns| {
      var gone := l.turns[e.i];
      var l' := Apply(l, e);
      forall k | 0 <= k < |l'.turns| ensures Fits(l', l'.turns[k]) {
        assert l'.turns[k] == l.turns[if k < e.i then k else k + 1];
        assert Fits(l, l'.turns[k]) && Fits(l, gone);
      }
    }
  }

  lemma {:induction false} RunKeepsSound(l: Ledger, events: seq<Event>)
    requires Sound(l)
    ensures Sound(Run(l, events))
    ensures Run(l, events).interval == l.interval && Run(l, events).burst == l.burst
    decreases |events|
  {
    if events != [] {
      ApplyKeepsSound(l, events[0]);
      RunKeepsSound(Apply(l, events[0]), events[1..]);
    }
  }

  /** Whatever is asked and cancelled, the outstanding turns occupy disjoint intervals, in order,
      all before the next booking: no turn is handed to two calls. */
  lemma OutstandingTurnsAreDisjoint(rate: Rate, events: seq<Event>)
    requires rate.Valid()
    ensures var l := Run(Opened(rate), events);
      && (forall i, j :: 0 <= i < j < |l.turns| ==>
           l.turns[i].before + rate.Interval() == l.turns[i].after <= l.turns[j].before)
      && (forall i :: 0 <= i < |l.turns| ==> Fits(l, l.turns[i]))
  {
    RunKeepsSound(Opened(rate), events);
    var l := Run(Opened(rate), events);
    forall i | 0 <= i < |l.turns| ensures Fits(l, l.turns[i]) {
    }
  }

  // ── A second refund ──────────────────────────────────────

  /** The ledger after `turn`, given back before, is given back once more. */
  function Again(l: Ledger, turn: Turn): Ledger { l.(next := Refunded(l.next, turn)) }

  /** No outstanding turn ends after `t`. */
  ghost predicate EndBy(turns: seq<Turn>, t: Instant) {
    forall i :: 0 <= i < |turns| ==> turns[i].after <= t
  }

  /** The interval of `turn` comes after those of all outstanding turns. */
  ghost predicate IsFree(turns: seq<Turn>, turn: Turn) { EndBy(turns, turn.before) }

  /** Every call asked from `clock` on gets a turn of its own. */
  ghost predicate BooksFree(l: Ledger, clock: Instant) {
    forall now: Instant :: clock <= now ==> IsFree(l.turns, Booked(l.interval, l.burst, l.next, now))
  }

  lemma SoundBooksFree(l: Ledger, clock: Instant)
    requires Sound(l)
    ensures BooksFree(l, clock)
  {
    forall now: Instant | clock <= now ensures IsFree(l.turns, Booked(l.interval, l.burst, l.next, now)) {
      forall i | 0 <= i < |l.turns| ensures l.turns[i].after <= Booked(l.interval, l.burst, l.next, now).before {
        assert Fits(l, l.turns[i]);
      }
    }
  }

  /** Whatever was asked and cancelled, giving a turn back again keeps the bookkeeping sound, and each
      later call a turn of its own, exactly when the bucket is not at the turn's end, or no outstanding
      turn ends after its start (or after the time of the calls to come). */
  lemma SecondRefundIsSafeIff(rate: Rate, events: seq<Event>, turn: Turn, clock: Instant)
    requires rate.Valid()
    ensures var l := Run(Opened(rate), events);
      && (Sound(Again(l, turn)) <==> l.next != Some(turn.after) || EndBy(l.turns, turn.before))
      && (BooksFree(Again(l, turn), clock) <==>
            l.next != Some(turn.after) || EndBy(l.turns, Max(turn.before, clock)))
  {
    RunKeepsSound(Opened(rate), events);
    AgainIsSoundIff(Run(Opened(rate), events), turn);
    AgainBooksFreeIff(Run(Opened(rate), events), turn, clock);
  }

  lemma AgainIsSoundIff(l: Ledger, turn: Turn)
    requires Sound(l)
    ensures Sound(Again(l, turn)) <==> l.next != Some(turn.after) || EndBy(l.turns, turn.before)
  {
    var again := Again(l, turn);
    if l.next == Some(turn.after) {
      forall i | 0 <= i < |l.turns| ensures Fits(again, again.turns[i]) <==> l.turns[i].after <= turn.before {
        assert Fits(l, l.turns[i]);
      }
    } else {
      assert again == l;
    }
  }

  lemma AgainBooksFreeIff(l: Ledger, turn: Turn, clock: Instant)
    requires Sound(l)
    ensures BooksFree(Again(l, turn), clock) <==>
      l.next != Some(turn.after) || EndBy(l.turns, Max(turn.before, clock))
  {
    var again := Again(l, turn);
    if l.next != Some(turn.after) {
      assert again == l;
      SoundBooksFree(l, clock);
    } else {
      var first := Booked(l.interval, l.burst, again.next, clock);
      assert first.before == Max(turn.before, clock);
      if BooksFree(again, clock) {
        assert IsFree(l.turns, first);
      } else {
        var now: Instant :| clock <= now && !IsFree(l.turns, Booked(l.interval, l.burst, again.next, now));
        assert Booked(l.interval, l.burst, again.next, now).before >= first.before;
      }
    }
  }

  /** A second refund at once changes nothing. */
  lemma SecondRefundAtOnce(next: Option<Instant>, turn: Turn)
    requires turn.before < turn.after
    ensures Refunded(Refunded(next, turn), turn) == Refunded(next, turn)
  {}

  /** With any rate that spaces calls, after anything: a call asks, is cancelled, another asks at that
      time. Giving the first turn back again is not safe: the second call's turn would be booked
      once more. */
  lemma SecondRefundHandsTurnTwice(rate: Rate, events: seq<Event>, now: Instant)
    requires rate.Valid() && rate.Interval() > 0
    ensures var l := Run(Opened(rate), events);
      var turn := Booked(l.interval, l.burst, l.next, now);
      var later := Run(Opened(rate), events + [Ask(now), Cancel(|l.turns|), Ask(now)]);
      && later.turns == l.turns + [turn]
      && Booked(l.interval, l.burst, Again(later, turn).next, now) == turn
      && !Sound(Again(later, turn)) && !BooksFree(Again(later, turn), now)
  {
    var l := Run(Opened(rate), events);
    var turn := Booked(l.interval, l.burst, l.next, now);
    var more := [Ask(now), Cancel(|l.turns|), Ask(now)];
    RunAppend(Opened(rate), events, more);
    RunKeepsSound(Opened(rate), events);
    var asked := Apply(l, more[0]);
    var back := Apply(asked, more[1]);
    assert back.turns == l.turns;
    assert Booked(l.interval, l.burst, back.next, now) == turn;
    var later := Apply(back, more[2]);
    assert more[1..] == [more[1], more[2]] && more[1..][1..] == [more[2]];
    assert Run(l, more) == Run(asked, [more[1], more[2]]) == Run(back, [more[2]]) == later;
    assert later.turns[|l.turns|] == turn;
    SecondRefundIsSafeIff(rate, events + more, turn, now);
  }

  lemma {:induction false} RunAppend(l: Ledger, events: seq<Event>, more: seq<Event>)
    ensures Run(l, events + more) == Run(Run(l, events), more)
    decreases |events|
  {
    if events == [] {
      assert events + more == more;
    } else {
      assert (events + more)[1..] == events[1..] + more;
      RunAppend(Apply(l, events[0]), events[1..], more);
    }
  }

  // ── How many calls go in a window ────────────────────────

  lemma {:induction false} Spread(l: Ledger, i: nat, j: nat)
    requires Sound(l) && i <= j < |l.turns|
    ensures l.turns[j].before >= l.turns[i].before + (j - i) * l.interval
  {
    if i < j {
      Spread(l, i, j - 1);
      assert l.turns[j].before >= l.turns[j - 1].after;
      assert (j - i) * l.interval == (j - 1 - i) * l.interval + l.interval;
    }
  }

  /** The turn `m` places after another goes at least `m - count + 1` intervals later. */
  lemma PlacesApart(rate: Rate, events: seq<Event>, i: nat, j: nat)
    requires rate.Valid()
    requires i <= j < |Run(Opened(rate), events).turns|
    ensures var turns := Run(Opened(rate), events).turns;
      turns[j].at >= turns[i].at + (j - i - rate.count + 1) * rate.Interval()
  {
    RunKeepsSound(Opened(rate), events);
    var l := Run(Opened(rate), events);
    Spread(l, i, j);
    var n := rate.Interval();
    assert (j - i - rate.count + 1) * n == (j - i) * n - n * (rate.count - 1);
  }

  lemma {:induction false} RangeSize(s: set<nat>, lo: nat, hi: int)
    requires forall x :: x in s ==> lo <= x <= hi
    requires lo <= hi + 1
    ensures |s| <= hi - lo + 1
    decreases hi - lo + 1
  {
    if lo == hi + 1 {
      assert s == {};
    } else {
      RangeSize(s - {hi}, lo, hi - 1);
    }
  }

  lemma Scaled(a: int, b: int, n: nat)
    requires a <= b
    ensures a * n <= b * n
  {
  }

  lemma DivisionBound(k: int, n: nat, w: nat)
    requires n > 0 && k * n <= w
    ensures k <= w / n
  {
    if k > w / n {
      Scaled(w / n + 1, k, n);
    }
  }

  /** At most `count + ⌊width / interval⌋` calls go within any window of that width. */
  lemma WindowHolds(rate: Rate, events: seq<Event>, from: Instant, width: nat, calls: set<nat>)
    requires rate.Valid() && rate.Interval() > 0
    requires var turns := Run(Opened(rate), events).turns;
      forall i :: i in calls ==> i < |turns| && from <= turns[i].at <= from + width
    ensures |calls| <= rate.count + width / rate.Interval()
  {
    if calls != {} {
      var lo, hi := Extremes(calls);
      PlacesApart(rate, events, lo, hi);
      var k := hi - lo - rate.count + 1;
      DivisionBound(k, rate.Interval(), width);
      RangeSize(calls, lo, hi);
    }
  }

  lemma {:induction false} Extremes(s: set<nat>) returns (lo: nat, hi: nat)
    requires s != {}
    ensures lo in s && hi in s && forall x :: x in s ==> lo <= x <= hi
    decreases |s|
  {
    var x :| x in s;
    if s == {x} {
      lo, hi := x, x;
    } else {
      var rest := s - {x};
      assert s == rest + {x};
      lo, hi := Extremes(rest);
      lo, hi := if x < lo then x else lo, if x > hi then x else hi;
    }
  }

  // ── A cancelled call leaves no trace ─────────────────────

  /** Two buckets that book alike from `now` on. */
  predicate Alike(a: Option<Instant>, b: Option<Instant>, now: Instant) {
    Max(if a.Some? then a.value else now, now) == Max(if b.Some? then b.value else now, now)
  }

  function AskAll(interval: nat, burst: nat, next: Option<Instant>, asks: seq<Instant>): seq<Turn>
    decreases |asks|
  {
    if asks == [] then []
    else
      var turn := Booked(interval, burst, next, asks[0]);
      [turn] + AskAll(interval, burst, Some(turn.after), asks[1..])
  }

  lemma {:induction false} AlikeBookAlike(interval: nat, burst: nat, a: Option<Instant>, b: Option<Instant>, now: Instant,
                                          asks: seq<Instant>)
    requires Alike(a, b, now) && forall i :: 0 <= i < |asks| ==> now <= asks[i]
    ensures AskAll(interval, burst, a, asks) == AskAll(interval, burst, b, asks)
  {
    if asks != [] {
      assert Alike(a, b, asks[0]);
      assert Booked(interval, burst, a, asks[0]) == Booked(interval, burst, b, asks[0]);
    }
  }

  /** A reservation refunded at once changes no later booking, while the clock does not go back. */
  lemma RefundLeavesNoTrace(interval: nat, burst: nat, next: Option<Instant>, now: Instant, asks: seq<Instant>)
    requires forall i :: 0 <= i < |asks| ==> now <= asks[i]
    ensures var turn := Booked(interval, burst, next, now);
      AskAll(interval, burst, Refunded(Some(turn.after), turn), asks) == AskAll(interval, burst, next, asks)
  {
    var turn := Booked(interval, burst, next, now);
    AlikeBookAlike(interval, burst, Refunded(Some(turn.after), turn), next, now, asks);
  }

  // ── Refinement of an explicit token bucket ───────────────

  /** Tokens present (negative: lent ahead), and the instant of the next refill, which only counts
      while the bucket is not full. */
  datatype Tokens = Tokens(level: int, due: Instant)

  /** The refills due by `now`. */
  function Refill(count: nat, interval: nat, t: Tokens, now: Instant): Tokens
    requires interval > 0
    decreases count - t.level
  {
    if t.level < count && t.due <= now then Refill(count, interval, Tokens(t.level + 1, t.due + interval), now)
    else t
  }

  /** Takes a token at `now`; a full bucket starts its refill clock then. */
  function Take(count: nat, interval: nat, t: Tokens, now: Instant): Tokens
    requires interval > 0
  {
    var full := Refill(count, interval, t, now);
    Tokens(full.level - 1, if full.level == count then now + interval else full.due)
  }

  /** When the token taken at `now`, leaving `t`, is there: at once, or at the refill that pays it. */
  function Granted(interval: nat, t: Tokens, now: Instant): Instant {
    if t.level >= 0 then now else t.due + (-t.level - 1) * interval
  }

  function TakeAll(count: nat, interval: nat, t: Tokens, asks: seq<Instant>): seq<Instant>
    requires interval > 0
    decreases |asks|
  {
    if asks == [] then []
    else
      var taken := Take(count, interval, t, asks[0]);
      [Granted(interval, taken, asks[0])] + TakeAll(count, interval, taken, asks[1..])
  }

  function Instants(turns: seq<Turn>): seq<Instant> {
    if turns == [] then [] else [turns[0].at] + Instants(turns[1..])
  }

  /** The next instant stands for the tokens: `now` is the last instant asked at. */
  ghost predicate Stands(count: nat, interval: nat, t: Tokens, next: Option<Instant>, now: Instant) {
    && t.level <= count
    && (t.level == count ==> next.None? || next.value <= now)
    && (t.level < count ==>
         next.Some? && next.value == t.due + (count - t.level - 1) * interval && t.due <= now + interval)
  }

  lemma {:induction false} RefillStands(count: nat, interval: nat, t: Tokens, next: Option<Instant>, last: Instant, now: Instant)
    requires interval > 0 && last <= now && Stands(count, interval, t, next, last)
    ensures var full := Refill(count, interval, t, now);
      Stands(count, interval, full, next, now) && (full.level < count ==> full.due > now)
    decreases count - t.level
  {
    if t.level < count && t.due <= now {
      var t' := Tokens(t.level + 1, t.due + interval);
      assert (count - t.level - 1) * interval == (count - t'.level - 1) * interval + interval;
      RefillStands(count, interval, t', next, now, now);
    }
  }

  lemma Products(count: int, level: int, n: nat)
    ensures n * (count - 1) == count * n - n
    ensures (count - level - 1) * n == count * n - level * n - n
    ensures (count - (level - 1) - 1) * n == count * n - level * n
    ensures (-(level - 1) - 1) * n == -(level * n)
    ensures level >= 1 ==> level * n >= n
    ensures level <= 0 ==> level * n <= 0
    ensures (count - (count - 1) - 1) * n == 0
    ensures level < count ==> (count - level - 1) * n >= 0
  {
    Distributes(count, -1, n);
    Distributes(count, -level - 1, n);
    Distributes(count, -level, n);
    Distributes(-level, -1, n);
    Distributes(level, -1, n);
    NotNegative(level - 1, n);
    NotNegative(-level, n);
    NotNegative(count - level - 1, n);
  }

  lemma Distributes(a: int, b: int, n: nat)
    ensures (a + b) * n == a * n + b * n && (-a) * n == -(a * n) && n * a == a * n
  {}

  lemma NotNegative(a: int, n: nat)
    ensures a >= 0 ==> a * n >= 0
  {}

  /** A full bucket grants at once, and starts its refill clock. */
  lemma FullStands(count: nat, interval: nat, next: Option<Instant>, now: Instant)
    requires count >= 1 && (next.None? || next.value <= now)
    ensures var taken, turn := Tokens(count - 1, now + interval), Booked(interval, interval * (count - 1), next, now);
      && Granted(interval, taken, now) == turn.at
      && Stands(count, interval, taken, Some(turn.after), now)
  {
    Products(count, count, interval);
  }

  /** A bucket that is not full grants at once while it has a token, else when a refill pays it. */
  lemma PartStands(count: nat, interval: nat, t: Tokens, next: Option<Instant>, now: Instant)
    requires count >= 1 && interval > 0 && t.level < count && t.due > now
    requires Stands(count, interval, t, next, now)
    ensures var taken, turn := Tokens(t.level - 1, t.due), Booked(interval, interval * (count - 1), next, now);
      && Granted(interval, taken, now) == turn.at
      && Stands(count, interval, taken, Some(turn.after), now)
  {
    Products(count, t.level, interval);
    PartInstant(t.level, t.level * interval, interval, interval * (count - 1), t.due, next.value, now);
  }

  /** The instant granted, `lent` being the level times the interval. */
  lemma PartInstant(level: int, lent: int, interval: nat, burst: nat, due: Instant, next: Instant, now: Instant)
    requires next == due + burst - lent && next >= due && now < due <= now + interval
    requires if level >= 1 then lent >= interval else lent <= 0
    ensures Booked(interval, burst, Some(next), now)
         == Turn(if level >= 1 then now else due - lent, next, next + interval)
  {
  }

  lemma TakeStands(count: nat, interval: nat, t: Tokens, next: Option<Instant>, last: Instant, now: Instant)
    requires count >= 1 && interval > 0 && last <= now && Stands(count, interval, t, next, last)
    ensures var taken, turn := Take(count, interval, t, now), Booked(interval, interval * (count - 1), next, now);
      && Granted(interval, taken, now) == turn.at
      && Stands(count, interval, taken, Some(turn.after), now)
  {
    RefillStands(count, interval, t, next, last, now);
    var full := Refill(count, interval, t, now);
    if full.level == count {
      FullStands(count, interval, next, now);
    } else {
      PartStands(count, interval, full, next, now);
    }
  }

  /** Whatever the instants asked at, in order, the bucket grants exactly what a bucket of `count`
      tokens refilled every interval grants. */
  lemma {:induction false} RefinesTokens(rate: Rate, t: Tokens, next: Option<Instant>, last: Instant, asks: seq<Instant>)
    requires rate.Valid() && rate.Interval() > 0 && Stands(rate.count, rate.Interval(), t, next, last)
    requires forall i :: 0 <= i < |asks| ==> last <= asks[i]
    requires forall i, j :: 0 <= i < j < |asks| ==> asks[i] <= asks[j]
    ensures Instants(AskAll(rate.Interval(), rate.Burst(), next, asks)) == TakeAll(rate.count, rate.Interval(), t, asks)
    decreases |asks|
  {
    if asks != [] {
      var interval := rate.Interval();
      TakeStands(rate.count, interval, t, next, last, asks[0]);
      var turn := Booked(interval, rate.Burst(), next, asks[0]);
      var rest := AskAll(interval, rate.Burst(), Some(turn.after), asks[1..]);
      RefinesTokens(rate, Take(rate.count, interval, t, asks[0]), Some(turn.after), asks[0], asks[1..]);
      assert ([turn] + rest)[1..] == rest;
    }
  }

  /** A new bucket is a full one. */
  lemma RefinesFullBucket(rate: Rate, asks: seq<Instant>)
    requires rate.Valid() && rate.Interval() > 0
    requires forall i, j :: 0 <= i < j < |asks| ==> asks[i] <= asks[j]
    ensures Instants(AskAll(rate.Interval(), rate.Burst(), None, asks))
         == TakeAll(rate.count, rate.Interval(), Tokens(rate.count, 0), asks)
  {
    RefinesTokens(rate, Tokens(rate.count, 0), None, 0, asks);
  }
}
