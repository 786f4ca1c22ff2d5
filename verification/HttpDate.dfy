/** HTTP dates, in the three formats of section 5.6.7 of RFC 9110. */
module HttpDate {
  import opened Wrappers
  import opened Calendar

  // ── Words and numbers ────────────────────────────────────

  predicate IsSpace(c: char) { c == ' ' || c == '\t' || c == '\n' || c == '\U{0C}' || c == '\r' }

  predicate IsDigit(c: char) { '0' <= c <= '9' }

  /** Stops at `c`, or at white space. */
  datatype Separator = Space | At(c: char) {
    predicate Stops(x: char) { if Space? then IsSpace(x) else x == c }
  }

  /** The text up to a separator, and from it on. */
  function Until(s: string, stops: Separator): (r: (string, string))
    ensures |r.0| + |r.1| == |s|
  {
    if s == [] || stops.Stops(s[0]) then ([], s)
    else var (first, rest) := Until(s[1..], stops); ([s[0]] + first, rest)
  }

  /** The pieces between white space, none empty. */
  function Words(s: string): seq<string>
    decreases |s|
  {
    if s == [] then []
    else if IsSpace(s[0]) then Words(s[1..])
    else
      var (first, rest) := Until(s, Space);
      assert Until(s[1..], Space).1 == rest;
      [first] + Words(rest)
  }

  /** The pieces between occurrences of `c`, maybe empty. */
  function Split(s: string, c: char): seq<string>
    decreases |s|
  {
    var (first, rest) := Until(s, At(c));
    if rest == [] then [first] else [first] + Split(rest[1..], c)
  }

  function Digits(s: string): Option<nat> {
    if s == [] then Some(0)
    else
      var n := |s| - 1;
      match Digits(s[..n])
      case None => None
      case Some(high) => if IsDigit(s[n]) then Some(high * 10 + (s[n] as int - '0' as int)) else None
  }

  /** An integer, maybe with a sign. */
  function ParseInt(s: string): Option<int> {
    if s == [] then None
    else
      var signed := s[0] == '+' || s[0] == '-';
      if signed && |s| == 1 then None
      else match Digits(if signed then s[1..] else s)
        case None => None
        case Some(n) => var v: int := n; Some(if s[0] == '-' then -v else v)
  }

  const MONTHS := ["Jan", "Feb", "Mar", "Apr", "May", "Jun", "Jul", "Aug", "Sep", "Oct", "Nov", "Dec"]

  function MonthFrom(name: string, i: nat): (m: Option<int>)
    requires i <= 12
    ensures m.Some? ==> i < m.value <= 12 && MONTHS[m.value - 1] == name
    decreases 12 - i
  {
    if i == 12 then None else if MONTHS[i] == name then Some(i + 1) else MonthFrom(name, i + 1)
  }

  function MonthNumber(name: string): Option<int> { MonthFrom(name, 0) }

  // ── Reading ──────────────────────────────────────────────

  /** Seconds past midnight of `hh:mm:ss`; the 60th second is a leap second. */
  function Clock(time: string): Option<int> {
    var parts := Split(time, ':');
    if |parts| != 3 || |parts[0]| != 2 || |parts[1]| != 2 || |parts[2]| != 2 then None
    else match (ParseInt(parts[0]), ParseInt(parts[1]), ParseInt(parts[2]))
      case (Some(h), Some(m), Some(s)) => if h > 23 || m > 59 || s > 60 then None else Some(h * 3600 + m * 60 + s)
      case _ => None
  }

  function SaturatingAdd(a: int, b: int): int { if a + b > I64_MAX then I64_MAX else a + b }

  /** The date of a two-digit year: of this century, or of the century before when it would be more
      than fifty years ahead. */
  function Nearest(year: int, month: int, day: int, seconds: int, now: int): Option<int> {
    match Timestamp(year, month, day, seconds)
    case None => None
    case Some(at) =>
      if at > SaturatingAdd(now, FIFTY_YEARS) then Timestamp(year - 100, month, day, seconds) else Some(at)
  }

  predicate EndsWithComma(s: string) { s != [] && s[|s| - 1] == ',' }

  predicate IsImf(words: seq<string>) {
    |words| == 6 && words[5] == "GMT" && EndsWithComma(words[0]) && |words[1]| == 2 && |words[3]| == 4
  }

  predicate IsRfc850(words: seq<string>) { |words| == 4 && words[3] == "GMT" && EndsWithComma(words[0]) }

  predicate IsAsctime(words: seq<string>) { |words| == 5 && 1 <= |words[2]| <= 2 && |words[4]| == 4 }

  /** A date with its century. */
  function FullDate(day: string, month: string, year: string, time: string): Option<int> {
    match (ParseInt(day), MonthNumber(month), ParseInt(year))
    case (Some(d), Some(m), Some(y)) => (match Clock(time) case None => None case Some(s) => Timestamp(y, m, d, s))
    case _ => None
  }

  function ShortDate(date: string, time: string, now: int): Option<int> {
    var parts := Split(date, '-');
    if |parts| != 3 || |parts[0]| != 2 || |parts[2]| != 2 then None
    else match (ParseInt(parts[0]), MonthNumber(parts[1]), ParseInt(parts[2]))
      case (Some(d), Some(m), Some(y)) =>
        (match Clock(time) case None => None case Some(s) => Nearest(ThisCentury(now) + y, m, d, s, now))
      case _ => None
  }

  /** Seconds since the epoch of an HTTP date. */
  function ReadDate(value: string, now: int): Option<int> {
    var words := Words(value);
    if IsImf(words) then FullDate(words[1], words[2], words[3], words[4])
    else if IsRfc850(words) then ShortDate(words[1], words[2], now)
    else if IsAsctime(words) then FullDate(words[2], words[1], words[4], words[3])
    else None
  }

  // ── Writing ──────────────────────────────────────────────

  function Digit(n: nat): char
    requires n < 10
  {
    n as char + '0'
  }

  function Two(n: nat): string
    requires n < 100
  {
    [Digit(n / 10), Digit(n % 10)]
  }

  function Four(n: nat): string
    requires n < 10000
  {
    Two(n / 100) + Two(n % 100)
  }

  /** An instant of a valid day. */
  datatype Moment = Moment(date: Date, hour: nat, minute: nat, second: nat) {
    predicate Valid() {
      date.Valid() && 0 <= date.year < 10000 && hour < 24 && minute < 60 && second <= 60
    }

    function Seconds(): int { hour * 3600 + minute * 60 + second }

    function At(): int { date.Days() * DAY + Seconds() }

    function Month(): string
      requires Valid()
    {
      MONTHS[date.month - 1]
    }

    function Time(): string
      requires Valid()
    {
      Two(hour) + ":" + Two(minute) + ":" + Two(second)
    }
  }

  /** A day's name: any word. */
  predicate IsWord(s: string) { s != [] && forall i :: 0 <= i < |s| ==> !IsSpace(s[i]) }

  /** A line of words, one space between them. */
  function Line(words: seq<string>): string
    requires words != []
  {
    if |words| == 1 then words[0] else words[0] + (" " + Line(words[1..]))
  }

  /** `Sun, 06 Nov 1994 08:49:37 GMT` */
  function Imf(name: string, t: Moment): string
    requires t.Valid()
  {
    Line([name + ",", Two(t.date.day), t.Month(), Four(t.date.year), t.Time(), "GMT"])
  }

  /** `06-Nov-94` */
  function Short(t: Moment): string
    requires t.Valid()
  {
    Two(t.date.day) + "-" + t.Month() + "-" + Two(t.date.year % 100)
  }

  /** `Sunday, 06-Nov-94 08:49:37 GMT` */
  function Rfc850(name: string, t: Moment): string
    requires t.Valid()
  {
    Line([name + ",", Short(t), t.Time(), "GMT"])
  }

  /** `Sun Nov  6 08:49:37 1994`: a day of one digit comes after two spaces. */
  function Asctime(name: string, t: Moment): string
    requires t.Valid()
  {
    if t.date.day >= 10 then Line([name, t.Month(), Two(t.date.day), t.Time(), Four(t.date.year)])
    else Line([name, t.Month()]) + "  " + Line([[Digit(t.date.day)], t.Time(), Four(t.date.year)])
  }

  // ── Reading what was written ─────────────────────────────

  lemma {:induction false} UntilStop(a: string, rest: string, stops: Separator)
    requires forall i :: 0 <= i < |a| ==> !stops.Stops(a[i])
    requires rest == [] || stops.Stops(rest[0])
    ensures Until(a + rest, stops) == (a, rest)
  {
    if a != [] {
      assert (a + rest)[1..] == a[1..] + rest;
      UntilStop(a[1..], rest, stops);
      assert [a[0]] + a[1..] == a;
    } else {
      assert a + rest == rest;
    }
  }

  lemma WordThen(w: string, rest: string)
    requires IsWord(w) && (rest == [] || IsSpace(rest[0]))
    ensures Words(w + rest) == [w] + Words(rest)
  {
    assert (w + rest)[0] == w[0];
    UntilStop(w, rest, Space);
  }

  lemma SpaceThen(rest: string)
    ensures Words(" " + rest) == Words(rest)
  {
    assert (" " + rest)[1..] == rest;
  }

  lemma OneWord(w: string)
    requires IsWord(w)
    ensures Words(w) == [w]
  {
    assert w + [] == w;
    WordThen(w, []);
  }

  lemma {:induction false} LineWords(words: seq<string>)
    requires words != [] && forall i :: 0 <= i < |words| ==> IsWord(words[i])
    ensures Words(Line(words)) == words
    decreases |words|
  {
    if |words| == 1 {
      OneWord(words[0]);
    } else {
      LineWords(words[1..]);
      WordThen(words[0], " " + Line(words[1..]));
      SpaceThen(Line(words[1..]));
    }
  }

  predicate Lacks(s: string, c: char) { forall i :: 0 <= i < |s| ==> s[i] != c }

  lemma SplitFirst(a: string, tail: string, c: char)
    requires Lacks(a, c)
    ensures Split(a + ([c] + tail), c) == [a] + Split(tail, c)
  {
    UntilStop(a, [c] + tail, At(c));
    assert ([c] + tail)[1..] == tail;
  }

  lemma SplitNone(a: string, c: char)
    requires Lacks(a, c)
    ensures Split(a, c) == [a]
  {
    assert a + [] == a;
    UntilStop(a, [], At(c));
  }

  lemma SplitThree(a: string, b: string, c: string, sep: char)
    requires Lacks(a, sep) && Lacks(b, sep) && Lacks(c, sep)
    ensures Split(a + [sep] + b + [sep] + c, sep) == [a, b, c]
  {
    hide Split, Lacks;
    assert a + [sep] + b + [sep] + c == a + ([sep] + (b + ([sep] + c)));
    SplitFirst(a, b + ([sep] + c), sep);
    SplitFirst(b, c, sep);
    SplitNone(c, sep);
  }

  lemma TwoDigits(n: nat)
    requires n < 100
    ensures ParseInt(Two(n)) == Some(n) && |Two(n)| == 2
    ensures IsDigit(Two(n)[0]) && IsDigit(Two(n)[1])
  {
    var s := Two(n);
    DigitsExtend([], s[0]);
    DigitsExtend([s[0]], s[1]);
    assert [] + [s[0]] == [s[0]] && [s[0]] + [s[1]] == s;
  }

  lemma DigitsExtend(s: string, c: char)
    requires IsDigit(c) && Digits(s).Some?
    ensures Digits(s + [c]) == Some(Digits(s).value * 10 + (c as int - '0' as int))
  {
    assert (s + [c])[..|s|] == s;
  }

  lemma OneDigit(n: nat)
    requires n < 10
    ensures ParseInt([Digit(n)]) == Some(n) && IsDigit(Digit(n))
  {
    DigitsExtend([], Digit(n));
    assert [] + [Digit(n)] == [Digit(n)];
  }

  lemma FourDigits(n: nat)
    requires n < 10000
    ensures ParseInt(Four(n)) == Some(n) && |Four(n)| == 4
    ensures forall i :: 0 <= i < 4 ==> IsDigit(Four(n)[i])
  {
    var s := Four(n);
    TwoDigits(n / 100);
    TwoDigits(n % 100);
    assert [] + [s[0]] == s[..1] && s[..1] + [s[1]] == s[..2] && s[..2] + [s[2]] == s[..3] && s[..3] + [s[3]] == s;
    DigitsExtend([], s[0]);
    DigitsExtend(s[..1], s[1]);
    DigitsExtend(s[..2], s[2]);
    DigitsExtend(s[..3], s[3]);
  }

  lemma ClockReads(t: Moment)
    requires t.Valid()
    ensures Clock(t.Time()) == Some(t.Seconds()) && |t.Time()| == 8 && IsWord(t.Time())
  {
    TwoDigits(t.hour);
    TwoDigits(t.minute);
    TwoDigits(t.second);
    SplitThree(Two(t.hour), Two(t.minute), Two(t.second), ':');
  }

  lemma MonthReads(t: Moment)
    requires t.Valid()
    ensures MonthNumber(t.Month()) == Some(t.date.month) && |t.Month()| == 3
    ensures IsWord(t.Month()) && Lacks(t.Month(), '-')
  {
    MonthsDiffer();
    MonthAt(t.date.month - 1, 0);
  }

  lemma MonthsDiffer()
    ensures forall i, j :: 0 <= i < j < 12 ==> MONTHS[i] != MONTHS[j]
    ensures forall i :: 0 <= i < 12 ==> |MONTHS[i]| == 3 && IsWord(MONTHS[i]) && Lacks(MONTHS[i], '-')
  {}

  lemma {:induction false} MonthAt(i: nat, from: nat)
    requires from <= i < 12 && forall j :: from <= j < i ==> MONTHS[j] != MONTHS[i]
    ensures MonthFrom(MONTHS[i], from) == Some(i + 1)
    decreases i - from
  {
    if from < i {
      MonthAt(i, from + 1);
    }
  }

  // ── The three formats ────────────────────────────────────

  lemma FullReads(t: Moment, day: string)
    requires t.Valid() && ParseInt(day) == Some(t.date.day)
    ensures FullDate(day, t.Month(), Four(t.date.year), t.Time()) == Some(t.At())
  {
    hide ParseInt, MonthNumber, Clock, Four;
    MonthReads(t);
    FourDigits(t.date.year);
    ClockReads(t);
  }

  lemma FieldsAreWords(t: Moment)
    requires t.Valid()
    ensures IsWord(Two(t.date.day)) && IsWord(t.Month()) && IsWord(Four(t.date.year)) && IsWord(t.Time()) && IsWord("GMT")
  {
    TwoDigits(t.date.day);
    MonthReads(t);
    FourDigits(t.date.year);
    ClockReads(t);
  }

  /** A date written as an IMF-fixdate is read as its instant. */
  lemma ImfReads(name: string, t: Moment, now: int)
    requires t.Valid() && IsWord(name)
    ensures ReadDate(Imf(name, t), now) == Some(t.At())
  {
    hide Two, Four, FullDate, Words;
    var words := [name + ",", Two(t.date.day), t.Month(), Four(t.date.year), t.Time(), "GMT"];
    FieldsAreWords(t);
    TwoDigits(t.date.day);
    FourDigits(t.date.year);
    LineWords(words);
    FullReads(t, Two(t.date.day));
  }

  /** A date written as by `asctime` is read as its instant. */
  lemma AsctimeReads(name: string, t: Moment, now: int)
    requires t.Valid() && IsWord(name)
    ensures ReadDate(Asctime(name, t), now) == Some(t.At())
  {
    hide Two, Four, FullDate, Words, ParseInt, Digit, Asctime;
    var day := if t.date.day < 10 then [Digit(t.date.day)] else Two(t.date.day);
    TwoDigits(t.date.day);
    FourDigits(t.date.year);
    if t.date.day < 10 {
      OneDigit(t.date.day);
    }
    AsctimeWords(name, t, day);
    FullReads(t, day);
  }

  lemma AsctimeWords(name: string, t: Moment, day: string)
    requires t.Valid() && IsWord(name) && IsWord(day)
    requires day == if t.date.day < 10 then [Digit(t.date.day)] else Two(t.date.day)
    ensures Words(Asctime(name, t)) == [name, t.Month(), day, t.Time(), Four(t.date.year)]
  {
    hide Two, Four, Words, Digit, IsWord, Line;
    FieldsAreWords(t);
    if t.date.day >= 10 {
      LineWords([name, t.Month(), day, t.Time(), Four(t.date.year)]);
    } else {
      var last := Line([day, t.Time(), Four(t.date.year)]);
      LineWords([day, t.Time(), Four(t.date.year)]);
      SpaceThen(last);
      SpaceThen(" " + last);
      WordThen(t.Month(), " " + (" " + last));
      SpaceThen(t.Month() + (" " + (" " + last)));
      WordThen(name, " " + (t.Month() + (" " + (" " + last))));
      LineOfTwo(name, t.Month());
      assert Asctime(name, t) == name + (" " + (t.Month() + (" " + (" " + last))));
    }
  }

  lemma LineOfTwo(a: string, b: string)
    ensures Line([a, b]) == a + (" " + b)
  {
    assert [a, b][1..] == [b];
  }

  lemma ShortReads(t: Moment, now: int)
    requires t.Valid()
    ensures ShortDate(Short(t), t.Time(), now)
         == Nearest(ThisCentury(now) + t.date.year % 100, t.date.month, t.date.day, t.Seconds(), now)
    ensures IsWord(Short(t))
  {
    hide ParseInt, MonthNumber, Clock, Split, Two, Nearest;
    MonthReads(t);
    ClockReads(t);
    TwoDigits(t.date.day);
    TwoDigits(t.date.year % 100);
    SplitThree(Two(t.date.day), t.Month(), Two(t.date.year % 100), '-');
  }

  /** A date written in the format of RFC 850 is read as that of this century with its two digits,
      or of the century before when that is more than fifty years ahead. */
  lemma Rfc850Reads(name: string, t: Moment, now: int)
    requires t.Valid() && IsWord(name)
    ensures ReadDate(Rfc850(name, t), now)
         == Nearest(ThisCentury(now) + t.date.year % 100, t.date.month, t.date.day, t.Seconds(), now)
    ensures t.date.year - t.date.year % 100 == ThisCentury(now) && t.At() <= SaturatingAdd(now, FIFTY_YEARS) ==>
      ReadDate(Rfc850(name, t), now) == Some(t.At())
  {
    hide Two, Words, ShortDate, Short, Nearest, ThisCentury;
    FieldsAreWords(t);
    ShortReads(t, now);
    LineWords([name + ",", Short(t), t.Time(), "GMT"]);
    NearestItself(t, now);
  }

  lemma NearestItself(t: Moment, now: int)
    requires t.Valid()
    ensures t.date.year - t.date.year % 100 == ThisCentury(now) && t.At() <= SaturatingAdd(now, FIFTY_YEARS) ==>
      Nearest(ThisCentury(now) + t.date.year % 100, t.date.month, t.date.day, t.Seconds(), now) == Some(t.At())
  {
    hide DaysFromCivil, ThisCentury;
  }

  // ── Two-digit years ──────────────────────────────────────

  /** A year starts at most some two weeks after as many years of 365.25 days. */
  lemma YearStart(year: int)
    requires year >= 1
    ensures 4 * FirstOf(year).Days() <= 1461 * (year - 1970) + 61
  {
    hide DaysFromCivil;
    CivilByYears(year, 1, 1);
    MonthTable(1);
    assert (year - 1) / 400 <= (year - 1) / 100;
  }

  /** A two-digit year is never read as more than fifty years ahead. */
  lemma NeverBeyondFifty(value: string, now: int)
    requires now >= 0 && IsRfc850(Words(value)) && ReadDate(value, now).Some?
    ensures ReadDate(value, now).value <= now + FIFTY_YEARS
    ensures FIFTY_YEARS * 10_000 == 50 * 3_652_425 * DAY
  {
    hide Words, Split, ParseInt, MonthFrom;
    var words := Words(value);
    var parts := Split(words[1], '-');
    var d, m, y := ParseInt(parts[0]).value, MonthNumber(parts[1]).value, ParseInt(parts[2]).value;
    var s := Clock(words[2]).value;
    SmallInt(parts[2]);
    ClockBound(words[2]);
    NearestBound(ThisCentury(now) + y, m, d, s, now);
  }

  lemma SmallInt(s: string)
    requires |s| == 2 && ParseInt(s).Some?
    ensures ParseInt(s).value <= 99
  {
    DigitsBound(if s[0] == '+' || s[0] == '-' then s[1..] else s);
  }

  lemma DigitsBound(s: string)
    requires 1 <= |s| <= 2 && Digits(s).Some?
    ensures Digits(s).value <= 99
  {
    assert Digits([]) == Some(0);
    if |s| == 2 {
      assert s[..1][..0] == [];
    }
  }

  lemma ClockBound(time: string)
    requires Clock(time).Some?
    ensures Clock(time).value <= DAY
  {}

  lemma NearestBound(year: int, month: int, day: int, seconds: int, now: int)
    requires now >= 0 && 1 <= month <= 12 && seconds <= DAY && year <= ThisCentury(now) + 99
    requires Nearest(year, month, day, seconds, now).Some?
    ensures Nearest(year, month, day, seconds, now).value <= now + FIFTY_YEARS
  {
    hide DaysFromCivil, ThisCentury, IsLeap;
    var at := Timestamp(year, month, day, seconds).value;
    if at > SaturatingAdd(now, FIFTY_YEARS) {
      var before := Date(year - 100, month, day);
      var century := ThisCentury(now);
      CenturyBound(now);
      WithinYear(before);
      YearsInOrder(year - 99, century);
      YearStart(century);
      assert before.Days() < FirstOf(century).Days();
    }
  }

  lemma CenturyBound(now: int)
    requires now >= 0
    ensures ThisCentury(now) >= 1900 && (ThisCentury(now) - 1970) * 31_557_600 <= now
  {}

  /** A century starts before as many years of 365.25 days are over. */
  lemma CenturyStart(century: int)
    requires century >= 2000 && century % 100 == 0
    ensures FirstOf(century).Days() * DAY <= (century - 1970) * JULIAN_YEAR
  {
    hide DaysFromCivil;
    CivilByYears(century, 1, 1);
    MonthTable(1);
    var q := century / 100;
    assert century == 100 * q;
    assert (century - 1) / 4 == 25 * q - 1 && (century - 1) / 100 == q - 1;
    assert (century - 1) / 400 <= q / 4;
  }

  /** The century taken for `now`'s is that of its year, but for the first hours or days of some
      centuries: the years counted are a little long. */
  lemma CenturyIsRight(now: int, year: int)
    requires now >= 0 && FirstOf(year).Days() * DAY <= now < FirstOf(year + 1).Days() * DAY
    ensures var century := year - year % 100;
      ThisCentury(now) == century <==> now >= (century - 1970) * JULIAN_YEAR
  {
    hide DaysFromCivil, ThisCentury;
    StartOfCentury(year);
    CountedCentury(now, year, year - year % 100);
  }

  lemma StartOfCentury(year: int)
    ensures (year - year % 100) % 100 == 0 && year - year % 100 <= year < year - year % 100 + 100
  {}

  lemma CountedCentury(now: int, year: int, century: int)
    requires now >= 0 && now < FirstOf(year + 1).Days() * DAY
    requires century % 100 == 0 && century <= year < century + 100
    ensures ThisCentury(now) == century <==> now >= (century - 1970) * JULIAN_YEAR
  {
    hide DaysFromCivil;
    AfterEpoch(now, year);
    BeforeNextCentury(now, year, century);
    Completed(now, century - 1970);
    InCentury(1970 + now / JULIAN_YEAR, century);
  }

  lemma BeforeNextCentury(now: int, year: int, century: int)
    requires year >= 1970 && now < FirstOf(year + 1).Days() * DAY
    requires century % 100 == 0 && century <= year < century + 100
    ensures now / JULIAN_YEAR + 1970 < century + 100
  {
    hide DaysFromCivil;
    YearsInOrder(year + 1, century + 100);
    CenturyStart(century + 100);
    Completed(now, century + 100 - 1970);
  }

  lemma Completed(now: int, k: int)
    ensures now / JULIAN_YEAR >= k <==> now >= k * JULIAN_YEAR
  {}

  lemma AfterEpoch(now: int, year: int)
    requires now >= 0 && now < FirstOf(year + 1).Days() * DAY
    ensures year >= 1970
  {
    if year < 1970 {
      YearsInOrder(year + 1, 1970);
      Epoch();
    }
  }

  lemma InCentury(year: int, century: int)
    requires century % 100 == 0 && year < century + 100
    ensures year - year % 100 == century <==> year >= century
  {}

  /** At the very start of 2000, the century is still 1900. */
  lemma CenturyStartsLate()
    ensures FirstOf(2000).Days() * DAY == 946_684_800 && ThisCentury(946_684_800) == 1900
  {
    CivilByYears(2000, 1, 1);
    MonthTable(1);
    hide DaysFromCivil;
    assert DaysBefore(1999) == 10651;
    Completed(946_684_800, 29);
    Completed(946_684_800, 30);
    InCentury(1999, 1900);
  }

  /** Of the two years of these digits, that of the century before is meant exactly when the day
      exists this century too, more than fifty years ahead. */
  lemma CenturyBefore(name: string, t: Moment, now: int)
    requires t.Valid() && IsWord(name) && t.date.year - t.date.year % 100 == ThisCentury(now) - 100
    ensures var later := Date(t.date.year + 100, t.date.month, t.date.day);
      ReadDate(Rfc850(name, t), now) == Some(t.At()) <==>
        later.Valid() && later.Days() * DAY + t.Seconds() > SaturatingAdd(now, FIFTY_YEARS)
  {
    hide ReadDate, Rfc850, ThisCentury, DaysFromCivil, IsLeap;
    Rfc850Reads(name, t, now);
    var later := Date(t.date.year + 100, t.date.month, t.date.day);
    assert ThisCentury(now) + t.date.year % 100 == later.year;
    if later.Valid() {
      DatesInOrder(t.date, later);
    }
  }

  // ── What is accepted ─────────────────────────────────────

  lemma {:induction false} UntilJoins(s: string, stops: Separator)
    ensures s == Until(s, stops).0 + Until(s, stops).1
    ensures Until(s, stops).1 != [] ==> stops.Stops(Until(s, stops).1[0])
  {
    if s != [] && !stops.Stops(s[0]) {
      UntilJoins(s[1..], stops);
      var r := Until(s[1..], stops);
      assert s == [s[0]] + s[1..] == [s[0]] + (r.0 + r.1);
      assert [s[0]] + (r.0 + r.1) == ([s[0]] + r.0) + r.1;
    }
  }

  lemma {:induction false} SplitJoins(s: string, c: char)
    ensures var parts := Split(s, c);
      && (|parts| == 1 ==> s == parts[0])
      && (|parts| == 2 ==> s == parts[0] + [c] + parts[1])
      && (|parts| == 3 ==> s == parts[0] + [c] + parts[1] + [c] + parts[2])
    decreases |s|
  {
    UntilJoins(s, At(c));
    var first, rest := Until(s, At(c)).0, Until(s, At(c)).1;
    hide Until;
    if rest != [] {
      var tail := rest[1..];
      assert rest == [c] + tail;
      SplitJoins(tail, c);
      var parts := Split(tail, c);
      assert Split(s, c) == [first] + parts;
      if |parts| == 2 {
        assert s == first + ([c] + (parts[0] + [c] + parts[1])) == first + [c] + parts[0] + [c] + parts[1];
      }
    }
  }

  /** A time of day is two characters for each of its numbers, `:` between them: never after
      23:59:60. */
  lemma ClockShape(time: string)
    requires Clock(time).Some?
    ensures |time| == 8 && time[2] == ':' && time[5] == ':'
    ensures var h, m, s := ParseInt(time[..2]), ParseInt(time[3..5]), ParseInt(time[6..]);
      && h.Some? && m.Some? && s.Some? && h.value <= 23 && m.value <= 59 && s.value <= 60
      && Clock(time).value == h.value * 3600 + m.value * 60 + s.value
  {
    hide ParseInt, Split;
    SplitJoins(time, ':');
    var parts := Split(time, ':');
    assert time[..2] == parts[0] && time[3..5] == parts[1] && time[6..] == parts[2];
  }

  /** `at` is this day at this time. */
  ghost predicate IsDayAt(day: string, month: string, year: int, time: string, at: int) {
    && ParseInt(day).Some? && MonthNumber(month).Some? && Clock(time).Some?
    && var date := Date(year, MonthNumber(month).value, ParseInt(day).value);
       date.Valid() && at == date.Days() * DAY + Clock(time).value
  }

  /** The date of a two-digit year, in one of two centuries. */
  ghost predicate IsShortDay(date: string, time: string, now: int, at: int) {
    exists day, month, year ::
      && IsDashed(date, day, month, year) && ParseInt(year).Some?
      && var thisYear := ThisCentury(now) + ParseInt(year).value;
         IsDayAt(day, month, thisYear, time, at) || IsDayAt(day, month, thisYear - 100, time, at)
  }

  predicate IsDashed(date: string, day: string, month: string, year: string) {
    |day| == 2 && |year| == 2 && date == day + "-" + month + "-" + year
  }

  /** Nothing else is a date: whatever is read has the words of one of the three formats, and is a
      day that exists. */
  lemma OnlyDates(value: string, now: int)
    requires ReadDate(value, now).Some?
    ensures var w, at := Words(value), ReadDate(value, now).value;
      || (|w| == 6 && EndsWithComma(w[0]) && |w[1]| == 2 && |w[3]| == 4 && w[5] == "GMT"
          && ParseInt(w[3]).Some? && IsDayAt(w[1], w[2], ParseInt(w[3]).value, w[4], at))
      || (|w| == 5 && 1 <= |w[2]| <= 2 && |w[4]| == 4
          && ParseInt(w[4]).Some? && IsDayAt(w[2], w[1], ParseInt(w[4]).value, w[3], at))
      || (|w| == 4 && EndsWithComma(w[0]) && w[3] == "GMT" && IsShortDay(w[1], w[2], now, at))
  {
    hide Words, Split, ParseInt, MonthFrom, Clock, ThisCentury, DaysFromCivil, IsLeap;
    var w, at := Words(value), ReadDate(value, now).value;
    if IsRfc850(w) {
      SplitJoins(w[1], '-');
      var parts := Split(w[1], '-');
      assert IsDashed(w[1], parts[0], parts[1], parts[2]);
    }
  }

  // ── Names and an example ─────────────────────────────────

  /** The months by their names. */
  lemma MonthNames()
    ensures MonthNumber("Jan") == Some(1) && MonthNumber("Feb") == Some(2) && MonthNumber("Mar") == Some(3)
    ensures MonthNumber("Apr") == Some(4) && MonthNumber("May") == Some(5) && MonthNumber("Jun") == Some(6)
    ensures MonthNumber("Jul") == Some(7) && MonthNumber("Aug") == Some(8) && MonthNumber("Sep") == Some(9)
    ensures MonthNumber("Oct") == Some(10) && MonthNumber("Nov") == Some(11) && MonthNumber("Dec") == Some(12)
  {
    forall i: nat | i < 12 ensures MonthNumber(MONTHS[i]) == Some(i + 1) {
      MonthsDiffer();
      MonthAt(i, 0);
    }
    assert MONTHS[0] == "Jan" && MONTHS[1] == "Feb" && MONTHS[2] == "Mar" && MONTHS[3] == "Apr" && MONTHS[4] == "May"
      && MONTHS[5] == "Jun" && MONTHS[6] == "Jul" && MONTHS[7] == "Aug" && MONTHS[8] == "Sep" && MONTHS[9] == "Oct"
      && MONTHS[10] == "Nov" && MONTHS[11] == "Dec";
  }

  const EXAMPLE := Moment(Date(1994, 11, 6), 8, 49, 37)

  /** The date of section 5.6.7 of RFC 9110, in its three formats. */
  lemma ExampleReads(now: int)
    ensures ReadDate("Sun, 06 Nov 1994 08:49:37 GMT", now) == Some(784_111_777)
    ensures ReadDate("Sun Nov  6 08:49:37 1994", now) == Some(784_111_777)
    ensures ThisCentury(now) == 1900 && now >= 0 ==> ReadDate("Sunday, 06-Nov-94 08:49:37 GMT", now) == Some(784_111_777)
  {
    ExampleInstant();
    ExampleTexts();
    hide ReadDate, Imf, Rfc850, Asctime, ThisCentury, Moment.Valid, Moment.At;
    ImfReads("Sun", EXAMPLE, now);
    AsctimeReads("Sun", EXAMPLE, now);
    Rfc850Reads("Sunday", EXAMPLE, now);
  }

  lemma ExampleInstant()
    ensures EXAMPLE.Valid() && EXAMPLE.At() == 784_111_777
  {}

  lemma ExampleFields()
    ensures EXAMPLE.Valid() && EXAMPLE.Month() == "Nov" && EXAMPLE.Time() == "08:49:37" && Short(EXAMPLE) == "06-Nov-94"
    ensures Two(6) == "06" && [Digit(6)] == "6" && Four(1994) == "1994"
  {
    assert Two(8) == "08" && Two(49) == "49" && Two(37) == "37" && Two(94) == "94";
  }

  lemma ExampleTexts()
    ensures EXAMPLE.Valid() && IsWord("Sun") && IsWord("Sunday")
    ensures Imf("Sun", EXAMPLE) == "Sun, 06 Nov 1994 08:49:37 GMT"
    ensures Rfc850("Sunday", EXAMPLE) == "Sunday, 06-Nov-94 08:49:37 GMT"
    ensures Asctime("Sun", EXAMPLE) == "Sun Nov  6 08:49:37 1994"
  {
    ExampleFields();
    LinesOfExample();
    hide Two, Four, Short, Digit, Line, Moment.Valid, Moment.Time, Moment.Month;
    assert "Sun" + "," == "Sun," && "Sunday" + "," == "Sunday,";
    assert "Sun Nov" + "  " + "6 08:49:37 1994" == "Sun Nov  6 08:49:37 1994";
  }

  lemma LineMore(word: string, words: seq<string>)
    requires words != []
    ensures Line([word] + words) == word + (" " + Line(words))
  {
    assert ([word] + words)[1..] == words;
  }

  lemma LinesOfExample()
    ensures Line(["Sun,", "06", "Nov", "1994", "08:49:37", "GMT"]) == "Sun, 06 Nov 1994 08:49:37 GMT"
    ensures Line(["Sunday,", "06-Nov-94", "08:49:37", "GMT"]) == "Sunday, 06-Nov-94 08:49:37 GMT"
    ensures Line(["Sun", "Nov"]) == "Sun Nov" && Line(["6", "08:49:37", "1994"]) == "6 08:49:37 1994"
  {
    hide Line;
    ImfLine();
    LineOfTwo("Sun", "Nov");
    assert "Sun" + (" " + "Nov") == "Sun Nov";
    TimeThen("1994");
    LineMore("6", ["08:49:37", "1994"]);
    assert ["6"] + ["08:49:37", "1994"] == ["6", "08:49:37", "1994"] && "6" + (" " + "08:49:37 1994") == "6 08:49:37 1994";
    TimeThen("GMT");
    LineMore("06-Nov-94", ["08:49:37", "GMT"]);
    LineMore("Sunday,", ["06-Nov-94"] + ["08:49:37", "GMT"]);
    assert ["Sunday,"] + (["06-Nov-94"] + ["08:49:37", "GMT"]) == ["Sunday,", "06-Nov-94", "08:49:37", "GMT"];
    assert "Sunday," + (" " + ("06-Nov-94" + (" " + "08:49:37 GMT"))) == "Sunday, 06-Nov-94 08:49:37 GMT";
  }

  lemma ImfTail()
    ensures Line(["Nov", "1994", "08:49:37", "GMT"]) == "Nov 1994 08:49:37 GMT"
  {
    hide Line;
    TimeThen("GMT");
    LineMore("1994", ["08:49:37", "GMT"]);
    assert ["1994"] + ["08:49:37", "GMT"] == ["1994", "08:49:37", "GMT"];
    LineMore("Nov", ["1994", "08:49:37", "GMT"]);
    assert ["Nov"] + ["1994", "08:49:37", "GMT"] == ["Nov", "1994", "08:49:37", "GMT"];
    assert "Nov" + (" " + ("1994" + (" " + "08:49:37 GMT"))) == "Nov 1994 08:49:37 GMT";
  }

  lemma ImfLine()
    ensures Line(["Sun,", "06", "Nov", "1994", "08:49:37", "GMT"]) == "Sun, 06 Nov 1994 08:49:37 GMT"
  {
    hide Line;
    ImfTail();
    LineMore("06", ["Nov", "1994", "08:49:37", "GMT"]);
    LineMore("Sun,", ["06"] + ["Nov", "1994", "08:49:37", "GMT"]);
    assert ["Sun,"] + (["06"] + ["Nov", "1994", "08:49:37", "GMT"]) == ["Sun,", "06", "Nov", "1994", "08:49:37", "GMT"];
    assert "Sun," + (" " + ("06" + (" " + "Nov 1994 08:49:37 GMT"))) == "Sun, 06 Nov 1994 08:49:37 GMT";
  }

  lemma TimeThen(last: string)
    ensures Line(["08:49:37", last]) == "08:49:37 " + last
  {
    LineOfTwo("08:49:37", last);
    assert "08:49:37" + " " == "08:49:37 ";
    assert "08:49:37" + (" " + last) == ("08:49:37" + " ") + last;
  }
}
