/** Interval strings, slot alignment and slot counts. */
module Intervals {
  import opened Wrappers
  import opened Calendar

  datatype CoverageError =
    | EndNotAfterStart
    | InvalidInterval
    | UnsupportedUnit
    | Misaligned
    | NotMultiple
    | InvalidRange
    | QueryFailed
    | QueryDidNotAdvance
    | ZeroTime

  const MAX_INT64 := 0x7FFF_FFFF_FFFF_FFFF

  predicate IsDigit(c: char) {
    '0' <= c <= '9'
  }

  /** The decimal number a non-empty digit string denotes. */
  function Digits(s: string): Option<nat> {
    if s == [] then None
    else if !IsDigit(s[|s| - 1]) then None
    else
      var low := (s[|s| - 1] - '0') as nat;
      if |s| == 1 then Some(low)
      else match Digits(s[..|s| - 1])
        case None => None
        case Some(high) => Some(10 * high + low)
  }

  /** Go's `strconv.Atoi` on a 64-bit platform. */
  function Atoi(s: string): (r: Option<int>) {
    if s == [] then None
    else
      var body := if s[0] == '+' || s[0] == '-' then s[1..] else s;
      match Digits(body)
      case None => None
      case Some(n) =>
        if s[0] == '-' then (if n <= MAX_INT64 + 1 then Some(-(n as int)) else None)
        else if n <= MAX_INT64 then Some(n as int) else None
  }

  /** The length of an interval string such as "5m", in nanoseconds. */
  function IntervalDuration(interval: string): (r: Result<int, CoverageError>)
    ensures r.Ok? ==> r.value > 0 && r.value % SECOND == 0
    ensures r.Err? ==> r.error in {InvalidInterval, UnsupportedUnit}
  {
    if |interval| < 2 then Err(InvalidInterval)
    else
      match Atoi(interval[..|interval| - 1])
      case None => Err(InvalidInterval)
      case Some(n) =>
        if n <= 0 then Err(InvalidInterval)
        else UnitDuration(n, interval[|interval| - 1])
  }

  function UnitDuration(n: int, unit: char): (r: Result<int, CoverageError>)
    requires n > 0
    ensures r.Ok? ==> r.value > 0 && r.value % SECOND == 0
    ensures r.Err? ==> r.error == UnsupportedUnit
  {
    if unit == 's' then ModMultiple(n, SECOND); Ok(n * SECOND)
    else if unit == 'm' then ModMultiple(n * 60, SECOND); Ok(n * 60 * SECOND)
    else if unit == 'h' then ModMultiple(n * 3600, SECOND); Ok(n * 3600 * SECOND)
    else if unit == 'd' then ModMultiple(n * 86_400, SECOND); Ok(n * 86_400 * SECOND)
    else Err(UnsupportedUnit)
  }

  /**
   * The interval strings that stream-key validation lets through: 1s 5s 10s 30s 1m 3m 5m 15m
   * 30m 1h 2h 4h 6h 8h 12h 1d 3d 1w 1M.
   */
  predicate IsAdmitted(interval: string) {
    if |interval| == 2 then
      var n, unit := interval[0], interval[1];
      || (unit == 's' && n in {'1', '5'})
      || (unit == 'm' && n in {'1', '3', '5'})
      || (unit == 'h' && n in {'1', '2', '4', '6', '8'})
      || (unit == 'd' && n in {'1', '3'})
      || (unit in {'w', 'M'} && n == '1')
    else
      && |interval| == 3
      && var n, m, unit := interval[0], interval[1], interval[2];
         || (unit == 's' && n in {'1', '3'} && m == '0')
         || (unit == 'm' && ((n == '1' && m == '5') || (n == '3' && m == '0')))
         || (unit == 'h' && n == '1' && m == '2')
  }

  predicate IsAligned(t: int, d: int) {
    d > 0 && t % d == 0
  }

  /** The number of interval slots in [startAt, endAt). */
  function ExpectedCount(startAt: int, endAt: int, interval: string): (r: Result<int, CoverageError>)
    ensures r.Ok? <==>
            && startAt < endAt
            && IntervalDuration(interval).Ok?
            && IsAligned(startAt, IntervalDuration(interval).value)
            && IsAligned(endAt, IntervalDuration(interval).value)
    ensures r.Ok? ==> r.value > 0 && r.value * IntervalDuration(interval).value == endAt - startAt
    ensures r != Err(NotMultiple)  // alignment of both ends already makes the length a multiple
    ensures r.Err? ==> r.error == CountError(startAt, endAt, interval)
  {
    if endAt <= startAt then Err(EndNotAfterStart)
    else
      match IntervalDuration(interval)
      case Err(e) => Err(e)
      case Ok(d) =>
        if !IsAligned(startAt, d) || !IsAligned(endAt, d) then Err(Misaligned)
        else
          AlignedDifference(startAt, endAt, d);
          if (endAt - startAt) % d != 0 then Err(NotMultiple)
          else Ok((endAt - startAt) / d)
  }

  /** Which error a failing slot count reports. */
  function CountError(startAt: int, endAt: int, interval: string): CoverageError {
    if endAt <= startAt then EndNotAfterStart
    else if IntervalDuration(interval).Err? then IntervalDuration(interval).error
    else Misaligned
  }

  /** Exactly when each error is reported. */
  lemma CountErrors(startAt: int, endAt: int, interval: string)
    ensures ExpectedCount(startAt, endAt, interval) == Err(EndNotAfterStart) <==> endAt <= startAt
    ensures ExpectedCount(startAt, endAt, interval) == Err(InvalidInterval)
            <==> startAt < endAt && (|interval| < 2 || NotPositive(Atoi(interval[..|interval| - 1])))
    ensures ExpectedCount(startAt, endAt, interval) == Err(UnsupportedUnit)
            <==> startAt < endAt && IntervalDuration(interval) == Err(UnsupportedUnit)
    ensures ExpectedCount(startAt, endAt, interval) == Err(Misaligned)
            <==> && startAt < endAt && IntervalDuration(interval).Ok?
                 && var d := IntervalDuration(interval).value; startAt % d != 0 || endAt % d != 0
  {
  }

  predicate NotPositive(n: Option<int>) {
    n.None? || n.value <= 0
  }

  lemma Quotient(t: int, d: int)
    requires IsAligned(t, d)
    ensures t == t / d * d
  {
  }

  lemma AlignedDifference(a: int, b: int, d: int)
    requires a < b && IsAligned(a, d) && IsAligned(b, d)
    ensures (b - a) % d == 0
    ensures (b - a) / d > 0 && (b - a) / d * d == b - a
    ensures (b - a) / d == b / d - a / d
  {
    var k := b / d - a / d;
    assert b - a == k * d;
    DivUnique(b - a, k, 0, d);
  }

  /** Whatever divides a day divides every whole number of days. */
  lemma DivisorOfDay(t: int, d: int)
    requires d > 0 && DAY % d == 0 && t % DAY == 0
    ensures IsAligned(t, d)
  {
    var k, m := t / DAY, DAY / d;
    assert t == k * DAY && DAY == m * d;
    assert t == (k * m) * d by {
      assert k * (m * d) == (k * m) * d;
    }
    ModMultiple(k * m, d);
  }

  lemma OneDigitInterval(d: char, unit: char)
    requires '1' <= d <= '9'
    ensures IntervalDuration([d, unit]) == UnitDuration((d - '0') as int, unit)
  {
    assert [d, unit][..1] == [d];
    assert Digits([d]) == Some((d - '0') as nat);
  }

  lemma TwoDigitInterval(d: char, e: char, unit: char)
    requires '1' <= d <= '9' && IsDigit(e)
    ensures IntervalDuration([d, e, unit]) == UnitDuration(10 * (d - '0') as int + (e - '0') as int, unit)
  {
    assert [d, e, unit][..2] == [d, e] && [d, e][..1] == [d];
    assert Digits([d]) == Some((d - '0') as nat);
    assert Digits([d, e]) == Some(10 * (d - '0') as nat + (e - '0') as nat);
  }

  /**
   * Of the admitted intervals, "1w" and "1M" have no duration, and "3d" is the only one
   * whose slots do not tile a UTC day.
   */
  lemma AdmittedIntervals(interval: string)
    requires IsAdmitted(interval)
    ensures IntervalDuration(interval).Ok? <==> interval != "1w" && interval != "1M"
    ensures IntervalDuration(interval).Ok? ==>
              (DAY % IntervalDuration(interval).value == 0 <==> interval != "3d")
  {
    if |interval| == 2 {
      OneDigitInterval(interval[0], interval[1]);
      assert interval == [interval[0], interval[1]];
    } else {
      TwoDigitInterval(interval[0], interval[1], interval[2]);
      assert interval == [interval[0], interval[1], interval[2]];
    }
  }

  // ---- What an interval string means --------------------------------------------------

  /** The usual decimal notation. */
  function Decimal(n: nat): string {
    if n < 10 then [('0' as int + n) as char] else Decimal(n / 10) + [('0' as int + n % 10) as char]
  }

  /** A number in decimal notation is read as itself, unless it is too large. */
  lemma {:induction false} DecimalIsRead(n: nat)
    ensures Decimal(n) != [] && IsDigit(Decimal(n)[0]) && Digits(Decimal(n)) == Some(n)
    ensures Atoi(Decimal(n)) == if n <= 0x7FFF_FFFF_FFFF_FFFF then Some(n) else None
  {
    if n >= 10 {
      DecimalIsRead(n / 10);
      assert Decimal(n)[..|Decimal(n)| - 1] == Decimal(n / 10);
    }
  }

  /** A day is 24 hours, 1440 minutes and 86400 seconds, and there is no other unit. */
  lemma UnitLengths(p: string, n: int, unit: char)
    requires p != [] && Atoi(p) == Some(n) && n > 0
    ensures IntervalDuration(p + "d") == Ok(n * DAY)
    ensures IntervalDuration(p + "h").Ok? && IntervalDuration(p + "h").value * 24 == n * DAY
    ensures IntervalDuration(p + "m").Ok? && IntervalDuration(p + "m").value * 1440 == n * DAY
    ensures IntervalDuration(p + "s").Ok? && IntervalDuration(p + "s").value * 86_400 == n * DAY
    ensures unit !in {'s', 'm', 'h', 'd'} ==> IntervalDuration(p + [unit]) == Err(UnsupportedUnit)
  {
    assert (p + "d")[..|p|] == p && (p + "h")[..|p|] == p && (p + "m")[..|p|] == p && (p + "s")[..|p|] == p;
    assert (p + [unit])[..|p|] == p;
  }
}
