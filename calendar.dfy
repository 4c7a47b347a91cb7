/**
 * The calendar part of the splash-screen controller: the `Months` enum with its
 * cyclic `next`/`previous`, the leap-year rule and the days-per-month schedule
 * that `fillMonths` applies.
 */
module Calendar {
  import opened JavaText

  /** The twelve months, in the declaration order of the enum. */
  datatype Month =
    | January | February | March | April | May | June
    | July | August | September | October | November | December

  /** `Months.values().length`. */
  const MonthCount: nat := 12

  /** Position of a month in the enum (`ordinal()`). */
  function Ordinal(m: Month): (o: nat)
    ensures o < MonthCount
  {
    match m
    case January => 0
    case February => 1
    case March => 2
    case April => 3
    case May => 4
    case June => 5
    case July => 6
    case August => 7
    case September => 8
    case October => 9
    case November => 10
    case December => 11
  }

  /** `Months.values()[o]`. */
  function FromOrdinal(o: nat): (m: Month)
    requires o < MonthCount
    ensures Ordinal(m) == o
  {
    if o == 0 then January
    else if o == 1 then February
    else if o == 2 then March
    else if o == 3 then April
    else if o == 4 then May
    else if o == 5 then June
    else if o == 6 then July
    else if o == 7 then August
    else if o == 8 then September
    else if o == 9 then October
    else if o == 10 then November
    else December
  }

  /** Ordinals identify months: the enum has no two constants at one position. */
  lemma OrdinalInjective(m: Month, n: Month)
    ensures Ordinal(m) == Ordinal(n) <==> m == n
  {
  }

  /** `Months.next()`: the following month, December wrapping round to January. */
  function Next(m: Month): (r: Month)
    ensures Ordinal(r) == (Ordinal(m) + 1) % MonthCount
  {
    FromOrdinal((Ordinal(m) + 1) % MonthCount)
  }

  /** `Months.previous()`: the preceding month, January wrapping round to December. */
  function Previous(m: Month): (r: Month)
    ensures Ordinal(r) == (Ordinal(m) - 1 + MonthCount) % MonthCount
  {
    FromOrdinal((Ordinal(m) - 1 + MonthCount) % MonthCount)
  }

  /** The two ends of the cycle. */
  lemma CursorWraps()
    ensures Next(December) == January
    ensures Previous(January) == December
  {
  }

  /** A number written as 12q + r with 0 <= r < 12 leaves remainder r. */
  lemma RemainderOf(x: int, q: int, r: int)
    requires 0 <= r < MonthCount && x == MonthCount * q + r
    ensures x % MonthCount == r
  {
  }

  /** `next` and `previous` undo each other, so the cursor never loses its place. */
  lemma NextPreviousInverse(m: Month)
    ensures Previous(Next(m)) == m
    ensures Next(Previous(m)) == m
  {
    var o := Ordinal(m);
    if o < MonthCount - 1 {
      RemainderOf(o + 1, 0, o + 1);
      RemainderOf(o + MonthCount, 1, o);
    } else {
      RemainderOf(o + 1, 1, 0);
      RemainderOf(MonthCount - 1, 0, MonthCount - 1);
    }
    if o > 0 {
      RemainderOf(o - 1 + MonthCount, 1, o - 1);
      RemainderOf(o, 0, o);
    } else {
      RemainderOf(MonthCount - 1, 0, MonthCount - 1);
      RemainderOf(MonthCount, 1, 0);
    }
    OrdinalInjective(Previous(Next(m)), m);
    OrdinalInjective(Next(Previous(m)), m);
  }

  /** The month reached by pressing "next" k times. */
  function NextTimes(m: Month, k: nat): (later: Month)
  {
    if k == 0 then m else Next(NextTimes(m, k - 1))
  }

  /** The month reached by pressing "previous" k times. */
  function PreviousTimes(m: Month, k: nat): (earlier: Month)
  {
    if k == 0 then m else Previous(PreviousTimes(m, k - 1))
  }

  /** One more step forward on a residue modulo 12. */
  lemma StepForward(a: int, x: int)
    requires a == x % MonthCount
    ensures (a + 1) % MonthCount == (x + 1) % MonthCount
  {
    var q := x / MonthCount;
    if a < MonthCount - 1 {
      RemainderOf(x + 1, q, a + 1);
      RemainderOf(a + 1, 0, a + 1);
    } else {
      RemainderOf(x + 1, q + 1, 0);
      RemainderOf(a + 1, 1, 0);
    }
  }

  /** One more step back on a residue modulo 12. */
  lemma StepBack(a: int, x: int)
    requires a == x % MonthCount
    ensures (a - 1 + MonthCount) % MonthCount == (x - 1) % MonthCount
  {
    var q := x / MonthCount;
    if a > 0 {
      RemainderOf(x - 1, q, a - 1);
      RemainderOf(a - 1 + MonthCount, 1, a - 1);
    } else {
      RemainderOf(x - 1, q - 1, MonthCount - 1);
      RemainderOf(a - 1 + MonthCount, 0, MonthCount - 1);
    }
  }

  /** A press of "next" on a month whose ordinal is x modulo 12 reaches x + 1 modulo 12. */
  lemma NextStep(p: Month, x: int)
    requires Ordinal(p) == x % MonthCount
    ensures Ordinal(Next(p)) == (x + 1) % MonthCount
  {
    StepForward(Ordinal(p), x);
  }

  /** A press of "previous" on a month whose ordinal is x modulo 12 reaches x - 1 modulo 12. */
  lemma PreviousStep(p: Month, x: int)
    requires Ordinal(p) == x % MonthCount
    ensures Ordinal(Previous(p)) == (x - 1) % MonthCount
  {
    StepBack(Ordinal(p), x);
  }

  /** k presses of "next" advance the ordinal by k modulo 12. */
  lemma {:induction false} NextTimesOrdinal(m: Month, k: nat)
    ensures Ordinal(NextTimes(m, k)) == (Ordinal(m) + k) % MonthCount
  {
    if k > 0 {
      NextTimesOrdinal(m, k - 1);
      var x := Ordinal(m) + (k - 1);
      NextStep(NextTimes(m, k - 1), x);
      assert x + 1 == Ordinal(m) + k;
    }
  }

  /** k presses of "previous" move the ordinal back by k modulo 12. */
  lemma {:induction false} PreviousTimesOrdinal(m: Month, k: nat)
    ensures Ordinal(PreviousTimes(m, k)) == (Ordinal(m) - k) % MonthCount
  {
    if k > 0 {
      PreviousTimesOrdinal(m, k - 1);
      var x := Ordinal(m) - (k - 1);
      PreviousStep(PreviousTimes(m, k - 1), x);
      assert x - 1 == Ordinal(m) - k;
    }
  }

  /** The cursor is a 12-cycle: k presses of "next" return to the start exactly when 12 divides k. */
  lemma NextTimesCycle(m: Month, k: nat)
    ensures NextTimes(m, k) == m <==> k % MonthCount == 0
  {
    var o := Ordinal(m);
    NextTimesOrdinal(m, k);
    OrdinalInjective(NextTimes(m, k), m);
    var q, r := k / MonthCount, k % MonthCount;
    if o + r < MonthCount {
      RemainderOf(o + k, q, o + r);
    } else {
      RemainderOf(o + k, q + 1, o + r - MonthCount);
    }
  }

  /**
   * `isLeapYear`, with Java's `%` (the remainder takes the sign of the dividend).
   */
  function IsLeapYear(year: int): (leap: bool)
  {
    JavaRem(year, 4) == 0 && (JavaRem(year, 100) != 0 || JavaRem(year, 400) == 0)
  }

  /** The source's rule is the Gregorian rule, for negative years too. */
  lemma LeapYearIsGregorian(year: int)
    ensures IsLeapYear(year) <==> year % 4 == 0 && (year % 100 != 0 || year % 400 == 0)
  {
    JavaRemZero(year, 4);
    JavaRemZero(year, 100);
    JavaRemZero(year, 400);
  }

  /** 2000 and 2024 are leap years; 1900 and 2023 are not. */
  lemma LeapYearExamples()
    ensures IsLeapYear(2000) && IsLeapYear(2024)
    ensures !IsLeapYear(1900) && !IsLeapYear(2023)
  {
  }

  /** The rule repeats every 400 years. */
  lemma LeapYearPeriodic(year: int)
    ensures IsLeapYear(year + 400) == IsLeapYear(year)
  {
    LeapYearIsGregorian(year);
    LeapYearIsGregorian(year + 400);
  }

  /** The day count `fillMonths` passes to `fillDays` for a month of the given year. */
  function DaysIn(m: Month, year: int): (n: nat)
    ensures 28 <= n <= 31
    ensures n == 29 <==> m == February && IsLeapYear(year)
    ensures n == 28 <==> m == February && !IsLeapYear(year)
    ensures n == 30 <==> m in {April, June, September, November}
  {
    match m
    case January => 31
    case February => if IsLeapYear(year) then 29 else 28
    case March => 31
    case April => 30
    case May => 31
    case June => 30
    case July => 31
    case August => 31
    case September => 30
    case October => 31
    case November => 30
    case December => 31
  }

  /** The number of days in the first k months of the year. */
  function DaysBefore(k: nat, year: int): (days: nat)
    requires k <= MonthCount
  {
    if k == 0 then 0 else DaysBefore(k - 1, year) + DaysIn(FromOrdinal(k - 1), year)
  }

  /** The schedule adds up to 365 days, or 366 in a leap year. */
  lemma {:induction false} YearLength(year: int)
    ensures DaysBefore(MonthCount, year) == if IsLeapYear(year) then 366 else 365
  {
    var feb := DaysIn(February, year);
    calc {
      DaysBefore(12, year);
      DaysBefore(11, year) + 31;
      DaysBefore(10, year) + 30 + 31;
      DaysBefore(9, year) + 31 + 30 + 31;
      DaysBefore(8, year) + 30 + 31 + 30 + 31;
      DaysBefore(7, year) + 31 + 30 + 31 + 30 + 31;
      DaysBefore(6, year) + 31 + 31 + 30 + 31 + 30 + 31;
      DaysBefore(5, year) + 30 + 31 + 31 + 30 + 31 + 30 + 31;
      DaysBefore(4, year) + 31 + 30 + 31 + 31 + 30 + 31 + 30 + 31;
      DaysBefore(3, year) + 30 + 31 + 30 + 31 + 31 + 30 + 31 + 30 + 31;
      DaysBefore(2, year) + 31 + 30 + 31 + 30 + 31 + 31 + 30 + 31 + 30 + 31;
      DaysBefore(1, year) + feb + 306;
      31 + feb + 306;
    }
  }
}
