/** The part of JavaScript's `Date` the renderer relies on: proleptic Gregorian
    dates with 0-based months, stepping a date by whole days (what `setDate` with
    an out-of-range day does), and the weekday (`getDay`, 0 = Sunday). */
module Calendar {

  predicate IsLeapYear(y: int) {
    (y % 4 == 0 && y % 100 != 0) || y % 400 == 0
  }

  function DaysInMonth(y: int, m: nat): (n: nat)
    requires m < 12
    ensures 28 <= n <= 31
  {
    if m == 1 then (if IsLeapYear(y) then 29 else 28)
    else if m == 3 || m == 5 || m == 8 || m == 10 then 30
    else 31
  }

  /** A calendar date; `month` is 0-based as `getMonth` returns it. */
  datatype Date = Date(year: int, month: nat, day: nat)

  predicate ValidDate(d: Date) {
    d.month < 12 && 1 <= d.day <= DaysInMonth(d.year, d.month)
  }

  /** Days from 1 January of `y` to the first day of month `m`. */
  function DaysBeforeMonth(y: int, m: nat): nat
    requires m <= 12
  {
    var cumulative := [0, 31, 59, 90, 120, 151, 181, 212, 243, 273, 304, 334, 365];
    cumulative[m] + (if IsLeapYear(y) && m >= 2 then 1 else 0)
  }

  /** Leap years among 1..n (counted with floor division, so also right for n <= 0). */
  function Leaps(n: int): int {
    n / 4 - n / 100 + n / 400
  }

  /** Days from 1 January 1970 to 1 January of `y`. */
  function DaysBeforeYear(y: int): int {
    365 * (y - 1970) + Leaps(y - 1) - Leaps(1969)
  }

  /** Days since 1 January 1970 of day `day` of month `m` of `y`. `day` may lie outside
      the month, as in `new Date(y, m, day)`, which then rolls into a neighbouring month. */
  function DayNumber(y: int, m: nat, day: int): int
    requires m < 12
  {
    DaysBeforeYear(y) + DaysBeforeMonth(y, m) + day - 1
  }

  function DateNumber(d: Date): int
    requires d.month < 12
  {
    DayNumber(d.year, d.month, d.day)
  }

  /** The year `new Date(y, m, day)` builds: a year of 0..99 is read as 1900..1999. */
  function ConstructorYear(y: int): int
  {
    if 0 <= y <= 99 then 1900 + y else y
  }

  /** `new Date(y, m, day).getDay()`: 1 January 1970 was a Thursday. */
  function WeekdayOf(y: int, m: nat, day: int): (w: nat)
    requires m < 12
    ensures w < 7
  {
    (DayNumber(y, m, day) + 4) % 7
  }

  function NextDay(d: Date): (r: Date)
    requires ValidDate(d)
    ensures ValidDate(r)
  {
    if d.day < DaysInMonth(d.year, d.month) then Date(d.year, d.month, d.day + 1)
    else if d.month < 11 then Date(d.year, d.month + 1, 1)
    else Date(d.year + 1, 0, 1)
  }

  function PrevDay(d: Date): (r: Date)
    requires ValidDate(d)
    ensures ValidDate(r)
  {
    if d.day > 1 then Date(d.year, d.month, d.day - 1)
    else if d.month > 0 then Date(d.year, d.month - 1, DaysInMonth(d.year, d.month - 1))
    else Date(d.year - 1, 11, 31)
  }

  /** The date `k` days after `d` (before it when `k` is negative). */
  function AddDays(d: Date, k: int): (r: Date)
    requires ValidDate(d)
    ensures ValidDate(r)
    decreases if k >= 0 then k else -k
  {
    if k == 0 then d
    else if k > 0 then AddDays(NextDay(d), k - 1)
    else AddDays(PrevDay(d), k + 1)
  }

  /** A year has 365 days, 366 when it is a leap year. */
  lemma YearLength(y: int)
    ensures DaysBeforeYear(y + 1) == DaysBeforeYear(y) + DaysBeforeMonth(y, 12)
  {
    StepDiv(y, 4);
    StepDiv(y, 100);
    StepDiv(y, 400);
  }

  /** Going from `y - 1` to `y`, the floor quotient by `d` goes up exactly at multiples of `d`. */
  lemma StepDiv(y: int, d: int)
    requires d == 4 || d == 100 || d == 400
    ensures y / d - (y - 1) / d == (if y % d == 0 then 1 else 0)
  {
    if d == 4 {
      assert y / 4 - (y - 1) / 4 == (if y % 4 == 0 then 1 else 0);
    } else if d == 100 {
      assert y / 100 - (y - 1) / 100 == (if y % 100 == 0 then 1 else 0);
    } else {
      assert y / 400 - (y - 1) / 400 == (if y % 400 == 0 then 1 else 0);
    }
  }

  lemma MonthLength(y: int, m: nat)
    requires m < 12
    ensures DaysBeforeMonth(y, m + 1) == DaysBeforeMonth(y, m) + DaysInMonth(y, m)
  {
  }

  /** `NextDay` is one day later on the day-number line. */
  lemma NextDayNumber(d: Date)
    requires ValidDate(d)
    ensures DateNumber(NextDay(d)) == DateNumber(d) + 1
  {
    if d.day == DaysInMonth(d.year, d.month) {
      MonthLength(d.year, d.month);
      if d.month == 11 {
        YearLength(d.year);
      }
    }
  }

  /** `PrevDay` is one day earlier on the day-number line. */
  lemma PrevDayNumber(d: Date)
    requires ValidDate(d)
    ensures DateNumber(PrevDay(d)) == DateNumber(d) - 1
  {
    if d.day == 1 {
      if d.month > 0 {
        MonthLength(d.year, d.month - 1);
      } else {
        YearLength(d.year - 1);
      }
    }
  }

  /** Stepping by `k` days moves `k` along the day-number line. */
  lemma AddDaysNumber(d: Date, k: int)
    requires ValidDate(d)
    ensures DateNumber(AddDays(d, k)) == DateNumber(d) + k
  {
    if k >= 0 {
      AddDaysForward(d, k);
    } else {
      AddDaysBackward(d, -k);
    }
  }

  lemma {:induction false} AddDaysForward(d: Date, k: nat)
    requires ValidDate(d)
    ensures DateNumber(AddDays(d, k)) == DateNumber(d) + k
    decreases k
  {
    if k > 0 {
      var n := NextDay(d);
      assert AddDays(d, k) == AddDays(n, k - 1);
      NextDayNumber(d);
      AddDaysForward(n, k - 1);
    }
  }

  lemma {:induction false} AddDaysBackward(d: Date, k: nat)
    requires ValidDate(d)
    ensures DateNumber(AddDays(d, -(k as int))) == DateNumber(d) - k
    decreases k
  {
    if k > 0 {
      var p := PrevDay(d);
      assert AddDays(d, -(k as int)) == AddDays(p, -(k as int) + 1);
      PrevDayNumber(d);
      AddDaysBackward(p, k - 1);
    }
  }

  /** ... and so the weekday moves by `k` (modulo 7). */
  lemma AddDaysWeekday(d: Date, k: int)
    requires ValidDate(d)
    ensures WeekdayOf(AddDays(d, k).year, AddDays(d, k).month, AddDays(d, k).day)
            == (WeekdayOf(d.year, d.month, d.day) + k) % 7
  {
    AddDaysNumber(d, k);
    ShiftModSeven(DateNumber(d) + 4, k);
  }

  lemma ShiftModSeven(a: int, k: int)
    ensures (a + k) % 7 == (a % 7 + k) % 7
  {
    var q := a / 7;
    assert a + k == (a % 7 + k) + 7 * q;
  }

  /** Reading a day beyond the end of a month is reading the same day count into the next
      month: the overflow rule of `new Date(y, m, day)`. Past the end of December it rolls
      into January of the next year. */
  lemma DayOverflowRollsIntoNextMonth(y: int, m: nat, day: int)
    requires m < 12
    ensures m < 11 ==> DayNumber(y, m, day) == DayNumber(y, m + 1, day - DaysInMonth(y, m))
    ensures m == 11 ==> DayNumber(y, 11, day) == DayNumber(y + 1, 0, day - 31)
  {
    MonthLength(y, m);
    if m == 11 {
      YearLength(y);
    }
  }
}
