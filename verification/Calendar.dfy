/** UTC calendar years on an unbounded nanosecond clock counted from 1970-01-01. */
module Calendar {

  const SECOND := 1_000_000_000
  const DAY := 86_400 * SECOND

  predicate IsLeapYear(y: int) {
    y % 4 == 0 && (y % 100 != 0 || y % 400 == 0)
  }

  function DaysInYear(y: int): int {
    if IsLeapYear(y) then 366 else 365
  }

  /** Days from 1970-01-01 to January 1 of year `y`, in either direction. */
  function EpochDay(y: int): int
    decreases if y < 1970 then 1970 - y else y - 1970
  {
    if y == 1970 then 0
    else if y > 1970 then EpochDay(y - 1) + DaysInYear(y - 1)
    else EpochDay(y + 1) - DaysInYear(y)
  }

  lemma EpochDayStep(y: int)
    ensures EpochDay(y + 1) == EpochDay(y) + DaysInYear(y)
  {
    if y < 1970 {
      assert EpochDay(y) == EpochDay(y + 1) - DaysInYear(y);
    }
  }

  /** How many multiples of four, less those of a hundred, plus those of four hundred, lie before `y`. */
  function LeapDaysBefore(y: int): int {
    (y - 1) / 4 - (y - 1) / 100 + (y - 1) / 400
  }

  lemma QuotientStep(y: int)
    ensures y / 4 - (y - 1) / 4 == if y % 4 == 0 then 1 else 0
    ensures y / 100 - (y - 1) / 100 == if y % 100 == 0 then 1 else 0
    ensures y / 400 - (y - 1) / 400 == if y % 400 == 0 then 1 else 0
  {
  }

  lemma FirstYear()
    ensures LeapDaysBefore(1970) == 477 && EpochDay(1970) == 0
  {
  }

  lemma {:induction false} LeapDaysCount(y: int)
    ensures EpochDay(y) == 365 * (y - 1970) + LeapDaysBefore(y) - 477
    decreases if y < 1970 then 1970 - y else y - 1970
  {
    hide LeapDaysBefore, EpochDay, DaysInYear;
    if y > 1970 {
      LeapDaysCount(y - 1);
      LeapDaysStep(y - 1);
      EpochDayStep(y - 1);
    } else if y < 1970 {
      LeapDaysCount(y + 1);
      LeapDaysStep(y);
      EpochDayStep(y);
    } else {
      FirstYear();
    }
  }

  /** The closed form of the Gregorian rule; 477 leap days lie before 1970. */
  lemma EpochDayClosed(y: int)
    ensures EpochDay(y) == 365 * (y - 1970) + (y - 1) / 4 - (y - 1) / 100 + (y - 1) / 400 - 477
    ensures YearStart(y) == EpochDay(y) * 24 * 3600 * 1_000_000_000
  {
    LeapDaysCount(y);
  }

  lemma LeapDaysStep(y: int)
    ensures LeapDaysBefore(y + 1) == LeapDaysBefore(y) + DaysInYear(y) - 365
  {
    QuotientStep(y);
    RuleNested(y);
  }

  lemma RuleNested(y: int)
    ensures y % 400 == 0 ==> y % 100 == 0
    ensures y % 100 == 0 ==> y % 4 == 0
  {
  }

  /** The instant `time.Date(y, time.January, 1, 0, 0, 0, 0, time.UTC)`. */
  function YearStart(y: int): int {
    EpochDay(y) * DAY
  }

  lemma YearStartStep(y: int)
    ensures YearStart(y) + 365 * DAY <= YearStart(y + 1) <= YearStart(y) + 366 * DAY
  {
    EpochDayStep(y);
  }

  lemma {:induction false} YearStartMonotone(x: int, y: int)
    requires x < y
    ensures YearStart(x) < YearStart(y)
    decreases y - x
  {
    YearStartStep(y - 1);
    if x < y - 1 {
      YearStartMonotone(x, y - 1);
    }
  }

  /** Every UTC year begins a whole number of days after the epoch. */
  lemma YearStartIsWholeDays(y: int)
    ensures YearStart(y) % DAY == 0
  {
    ModMultiple(EpochDay(y), DAY);
  }

  /** Division with a given quotient and remainder. */
  lemma DivUnique(a: int, q: int, r: int, d: int)
    requires 0 <= r < d && a == q * d + r
    ensures a / d == q && a % d == r
  {
    var k := q - a / d;
    assert k * d == q * d - (a / d) * d;
    if k != 0 {
      MulOutgrows(k, d);
    }
  }

  lemma MulOutgrows(k: int, d: int)
    requires d > 0 && k != 0
    ensures k * d >= d || k * d <= -d
  {
    if k > 0 {
      assert (k - 1) * d >= 0;
    } else {
      assert (-k - 1) * d >= 0;
    }
  }

  lemma ModMultiple(k: int, d: int)
    requires d > 0
    ensures (k * d) % d == 0 && (k * d) / d == k
  {
    DivUnique(k * d, k, 0, d);
  }

  /** Walks from year `y` to the year that contains `t`. */
  function YearFrom(t: int, y: int): (r: int)
    ensures YearStart(r) <= t < YearStart(r + 1)
    decreases if t < YearStart(y) then YearStart(y) - t
              else if t >= YearStart(y + 1) then t - YearStart(y + 1) + 1
              else 0
  {
    YearStartStep(y);
    YearStartStep(y - 1);
    YearStartStep(y + 1);
    if t < YearStart(y) then YearFrom(t, y - 1)
    else if t >= YearStart(y + 1) then YearFrom(t, y + 1)
    else y
  }

  /** The UTC year of an instant: Go's `t.UTC().Year()`. */
  function YearOf(t: int): (y: int)
    ensures YearStart(y) <= t < YearStart(y + 1)
  {
    YearFrom(t, 1970)
  }

  lemma YearOfUnique(t: int, y: int)
    requires YearStart(y) <= t < YearStart(y + 1)
    ensures YearOf(t) == y
  {
    var r := YearOf(t);
    if r < y {
      if r + 1 < y {
        YearStartMonotone(r + 1, y);
      }
    } else if y < r {
      if y + 1 < r {
        YearStartMonotone(y + 1, r);
      }
    }
  }

  lemma YearOfMonotone(t: int, u: int)
    requires t <= u
    ensures YearOf(t) <= YearOf(u)
    ensures YearOf(t) < YearOf(u) ==> YearStart(YearOf(t) + 1) <= YearStart(YearOf(u)) <= u
  {
    var x, y := YearOf(t), YearOf(u);
    if y < x {
      if y + 1 < x {
        YearStartMonotone(y + 1, x);
      }
    } else if x + 1 < y {
      YearStartMonotone(x + 1, y);
    }
  }
}
