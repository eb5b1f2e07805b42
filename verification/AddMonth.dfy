/** Adding months to a time, on dates as section 21.4.1 of ECMA-262 has them. */
module AddMonth {
  import opened Common

  const MS_PER_DAY := 86_400_000

  /** A date of the civil calendar; months count from 0. */
  datatype Civil = Civil(year: int, month: int, day: int)

  predicate IsLeap(year: int) {
    (year % 4 == 0 && year % 100 != 0) || year % 400 == 0
  }

  function MonthLength(year: int, month: int): int
    requires 0 <= month < 12
  {
    if month == 1 then (if IsLeap(year) then 29 else 28)
    else if month in {3, 5, 8, 10} then 30
    else 31
  }

  /** Days of the year before a month. */
  function DaysBefore(year: int, month: int): int
    requires 0 <= month <= 12
  {
    if month == 0 then 0 else DaysBefore(year, month - 1) + MonthLength(year, month - 1)
  }

  /** The number of the first day of a year; 1 January 1970 is day 0. */
  function DayFromYear(year: int): int {
    365 * (year - 1970) + (year - 1969) / 4 - (year - 1901) / 100 + (year - 1601) / 400
  }

  predicate Valid(c: Civil) {
    0 <= c.month < 12 && 1 <= c.day <= MonthLength(c.year, c.month)
  }

  /** MakeDay: the day of the month may be too large. */
  function MakeDay(year: int, month: int, day: int): int
    requires 0 <= month < 12
  {
    DayFromYear(year) + DaysBefore(year, month) + day - 1
  }

  // ----- From a day back to its date -----

  lemma YearLength(year: int)
    ensures DayFromYear(year + 1) == DayFromYear(year) + (if IsLeap(year) then 366 else 365)
    ensures DaysBefore(year, 12) == if IsLeap(year) then 366 else 365
  {
    DivNext(year - 1969, 4);
    DivNext(year - 1901, 100);
    DivNext(year - 1601, 400);
    MonthStarts(year);
  }

  lemma DivNext(a: int, n: int)
    requires n > 1
    ensures (a + 1) / n == a / n + (if (a + 1) % n == 0 then 1 else 0)
  {
    var q, r := a / n, a % n;
    assert a == q * n + r;
    if r == n - 1 {
      assert a + 1 == (q + 1) * n;
      DivUnique(a + 1, n, q + 1, 0);
    } else {
      DivUnique(a + 1, n, q, r + 1);
    }
  }

  lemma DivUnique(a: int, n: int, q: int, r: int)
    requires n > 1 && a == q * n + r && 0 <= r < n
    ensures a / n == q && a % n == r
  {
    var d := q - a / n;
    assert d * n == a % n - r;
    if d != 0 {
      AtLeastOnce(d, n);
    }
  }

  lemma AtLeastOnce(d: int, n: int)
    requires d != 0 && n > 1
    ensures d * n >= n || d * n <= -n
  {
    if d >= 1 {
      ProductNotNegative(d - 1, n);
      assert (d - 1) * n == d * n - n;
    } else {
      ProductNotNegative(-d - 1, n);
      assert (-d - 1) * n == -(d * n) - n;
    }
  }

  lemma ProductNotNegative(a: nat, b: nat)
    ensures a * b >= 0
  {
  }

  lemma MonthStarts(year: int)
    ensures
      var leap := if IsLeap(year) then 1 else 0;
      && DaysBefore(year, 1) == 31 && DaysBefore(year, 2) == 59 + leap && DaysBefore(year, 3) == 90 + leap
      && DaysBefore(year, 4) == 120 + leap && DaysBefore(year, 5) == 151 + leap && DaysBefore(year, 6) == 181 + leap
      && DaysBefore(year, 7) == 212 + leap && DaysBefore(year, 8) == 243 + leap && DaysBefore(year, 9) == 273 + leap
      && DaysBefore(year, 10) == 304 + leap && DaysBefore(year, 11) == 334 + leap && DaysBefore(year, 12) == 365 + leap
  {
  }

  /** YearFromTime: the year whose first day is the last one not after `n`. */
  function YearUp(n: int, year: int): (y: int)
    requires DayFromYear(year) <= n
    ensures DayFromYear(y) <= n < DayFromYear(y + 1)
    decreases n - DayFromYear(year)
  {
    YearLength(year);
    if DayFromYear(year + 1) <= n then YearUp(n, year + 1) else year
  }

  function YearDown(n: int, year: int): (y: int)
    ensures DayFromYear(y) <= n
    decreases if DayFromYear(year) > n then DayFromYear(year) - n else 0
  {
    YearLength(year - 1);
    if DayFromYear(year) <= n then year else YearDown(n, year - 1)
  }

  /** MonthFromTime: the month that day `d` of a year, counted from 0, lies in. */
  function MonthUp(year: int, d: int, month: int): (m: int)
    requires 0 <= month < 12 && DaysBefore(year, month) <= d < DaysBefore(year, 12)
    ensures month <= m < 12 && DaysBefore(year, m) <= d < DaysBefore(year, m + 1)
    decreases 12 - month
  {
    if d < DaysBefore(year, month + 1) then month else
      assert month < 11;
      MonthUp(year, d, month + 1)
  }

  function CivilOf(n: int): (c: Civil)
    ensures Valid(c) && MakeDay(c.year, c.month, c.day) == n
  {
    var year := YearUp(n, YearDown(n, 1970));
    YearLength(year);
    var d := n - DayFromYear(year);
    var month := MonthUp(year, d, 0);
    Civil(year, month, d - DaysBefore(year, month) + 1)
  }

  lemma {:induction false} YearsApart(a: int, b: int)
    requires a <= b
    ensures DayFromYear(a) + 365 * (b - a) <= DayFromYear(b)
    decreases b - a
  {
    if a < b {
      YearLength(b - 1);
      YearsApart(a, b - 1);
    }
  }

  lemma {:induction false} MonthsApart(year: int, a: int, b: int)
    requires 0 <= a <= b <= 12
    ensures DaysBefore(year, a) <= DaysBefore(year, b)
    decreases b - a
  {
    if a < b {
      MonthsApart(year, a, b - 1);
    }
  }

  /** Later dates have larger day numbers. */
  lemma LaterIsMore(c: Civil, d: Civil)
    requires Valid(c) && Valid(d)
    requires c.year < d.year || (c.year == d.year && (c.month < d.month || (c.month == d.month && c.day < d.day)))
    ensures MakeDay(c.year, c.month, c.day) < MakeDay(d.year, d.month, d.day)
  {
    if c.year < d.year {
      YearLength(c.year);
      YearsApart(c.year + 1, d.year);
      MonthsApart(c.year, c.month + 1, 12);
      MonthsApart(d.year, 0, d.month);
    } else if c.month < d.month {
      MonthsApart(c.year, c.month + 1, d.month);
    }
  }

  /** A day has one date. */
  lemma CivilUnique(c: Civil)
    requires Valid(c)
    ensures CivilOf(MakeDay(c.year, c.month, c.day)) == c
  {
    var d := CivilOf(MakeDay(c.year, c.month, c.day));
    if d != c {
      if c.year < d.year || (c.year == d.year && (c.month < d.month || (c.month == d.month && c.day < d.day))) {
        LaterIsMore(c, d);
      } else {
        LaterIsMore(d, c);
      }
    }
  }

  /** A day that a month does not have falls into the next month. */
  lemma Overflow(year: int, month: int, day: int)
    requires 0 <= month < 11 && MonthLength(year, month) < day <= 31
    ensures CivilOf(MakeDay(year, month, day)) == Civil(year, month + 1, day - MonthLength(year, month))
  {
    CivilUnique(Civil(year, month + 1, day - MonthLength(year, month)));
  }

  // ----- The Date object -----

  function FloorDiv(a: int, n: int): int
    requires n > 0
  {
    a / n
  }

  class Date {
    // Milliseconds since the start of 1970.
    var time: int

    constructor (time: int)
      ensures this.time == time
    {
      this.time := time;
    }

    function Read(): Civil
      reads this
    {
      CivilOf(FloorDiv(time, MS_PER_DAY))
    }

    function TimeOfDay(): int
      reads this
    {
      time % MS_PER_DAY
    }

    /** Moves to another day and keeps the time of day. */
    method SetDay(day: int)
      modifies this
      ensures time == day * MS_PER_DAY + old(TimeOfDay())
      ensures Read() == CivilOf(day) && TimeOfDay() == old(TimeOfDay())
    {
      var rest := time % MS_PER_DAY;
      time := day * MS_PER_DAY + rest;
      DivUnique(time, MS_PER_DAY, day, rest);
    }

    method SetUTCFullYear(year: int)
      modifies this
      ensures Read() == CivilOf(MakeDay(year, old(Read()).month, old(Read()).day)) && TimeOfDay() == old(TimeOfDay())
    {
      SetDay(MakeDay(year, Read().month, Read().day));
    }

    method SetUTCMonth(month: int)
      requires 0 <= month < 12
      modifies this
      ensures Read() == CivilOf(MakeDay(old(Read()).year, month, old(Read()).day)) && TimeOfDay() == old(TimeOfDay())
    {
      SetDay(MakeDay(Read().year, month, Read().day));
    }

    method SetUTCDate(day: int)
      modifies this
      ensures Read() == CivilOf(MakeDay(old(Read()).year, old(Read()).month, day)) && TimeOfDay() == old(TimeOfDay())
    {
      SetDay(MakeDay(Read().year, Read().month, day));
    }
  }

  /** Setting the month of a date that is on `day`. */
  lemma InMonth(year: int, month: int, day: int)
    requires 0 <= month < 12 && 1 <= day <= 31
    ensures
      var r := CivilOf(MakeDay(year, month, day));
      && (day <= MonthLength(year, month) ==> r == Civil(year, month, day))
      && (day > MonthLength(year, month) ==> r == Civil(year, month + 1, day - MonthLength(year, month)))
  {
    if day <= MonthLength(year, month) {
      CivilUnique(Civil(year, month, day));
    } else {
      Overflow(year, month, day);
    }
  }

  /** `_addMonth`. The result lies `number` months later, at the same time of day, on the same day of the
      month or the last one there is, except that 29 February moved to a year without one becomes the
      first of the month: setting the year overflows to 1 March before the month is set. */
  method AddMonths(oldTime: int, number: int) returns (newTime: int)
    ensures newTime % MS_PER_DAY == oldTime % MS_PER_DAY
    ensures
      var was, now := CivilOf(FloorDiv(oldTime, MS_PER_DAY)), CivilOf(FloorDiv(newTime, MS_PER_DAY));
      var months := was.year * 12 + was.month + number;
      var leapDay := was.month == 1 && was.day == 29 && !IsLeap(FloorDiv(months, 12));
      && now.year == FloorDiv(months, 12) && now.month == months % 12
      && now.day == (if leapDay then 1 else Min(was.day, MonthLength(now.year, now.month)))
      && (now.day == Min(was.day, MonthLength(now.year, now.month)) <==> !leapDay)
  {
    hide CivilOf, MakeDay;
    var date := new Date(oldTime);
    ghost var was := date.Read();
    var newMonths := date.Read().year * 12 + date.Read().month + number;
    var year := FloorDiv(newMonths, 12);
    var month := newMonths - year * 12;
    var day := date.Read().day;
    date.SetUTCFullYear(year);
    InMonth(year, was.month, was.day);
    ghost var start := date.Read().day;
    date.SetUTCMonth(month);
    InMonth(year, month, start);
    ghost var length := MonthLength(year, month);
    while date.Read().month != month
      invariant 1 <= was.day <= 31 && date.TimeOfDay() == oldTime % MS_PER_DAY && date.Read().year == year
      invariant if date.Read().month == month then date.Read().day == Min(start, length)
                else start == was.day && length <= day <= start
      decreases day
    {
      InMonth(year, 0, date.Read().day);
      InMonth(year, 0, day);
      date.SetUTCMonth(0);
      date.SetUTCDate(day);
      day := day - 1;
      date.SetUTCMonth(month);
      InMonth(year, month, day + 1);
    }
    newTime := date.time;
  }
}
