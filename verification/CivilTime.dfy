/** Day numbers of civil dates, and the instant a date-time text names. */
module CivilTime {
  import opened Options
  import opened Texts

  // ---------------------------------------------------------------- the calendar itself

  predicate IsLeap(year: int) { year % 4 == 0 && (year % 100 != 0 || year % 400 == 0) }

  function MonthLength(year: int, month: int): (n: int)
    ensures 28 <= n <= 31
  {
    if month == 2 then (if IsLeap(year) then 29 else 28)
    else if month == 4 || month == 6 || month == 9 || month == 11 then 30
    else 31
  }

  function YearLength(year: int): int { if IsLeap(year) then 366 else 365 }

  datatype Date = Date(year: int, month: int, day: int)

  predicate IsDate(d: Date) { 1 <= d.month <= 12 && 1 <= d.day <= MonthLength(d.year, d.month) }

  /** Days from the first day of the year to the first day of the month. */
  function MonthStart(year: int, month: int): int
    requires 1 <= month <= 12
    decreases month
  {
    if month == 1 then 0 else MonthStart(year, month - 1) + MonthLength(year, month - 1)
  }

  /** Days from 1 January 1970 to 1 January of the year, in the proleptic Gregorian calendar. */
  function YearStart(year: int): int
    decreases if year < 1970 then 1970 - year else year - 1970
  {
    if year == 1970 then 0
    else if year > 1970 then YearStart(year - 1) + YearLength(year - 1)
    else YearStart(year + 1) - YearLength(year)
  }

  function DayNumber(year: int, month: int, day: int): int
    requires 1 <= month <= 12
  {
    YearStart(year) + MonthStart(year, month) + day - 1
  }

  function NextDate(d: Date): (r: Date)
    requires IsDate(d)
    ensures IsDate(r)
  {
    if d.day < MonthLength(d.year, d.month) then d.(day := d.day + 1)
    else if d.month < 12 then Date(d.year, d.month + 1, 1)
    else Date(d.year + 1, 1, 1)
  }

  predicate Before(a: Date, b: Date) {
    a.year < b.year || (a.year == b.year && (a.month < b.month || (a.month == b.month && a.day < b.day)))
  }

  // ---------------------------------------------------------------- the computation

  /** Division in C rounds towards zero. */
  function Quotient(a: int, b: int): int
    requires b > 0
  {
    if a >= 0 then a / b else -((-a) / b)
  }

  function DaysFromCivil(year: int, month: nat, day: nat): int
    requires 1 <= month <= 12 && 1 <= day
  {
    var y := if month <= 2 then year - 1 else year;
    var era := Quotient(if y >= 0 then y else y - 399, 400);
    var yearOfEra := y - era * 400;
    var adjustedMonth := if month > 2 then month - 3 else month + 9;
    var dayOfYear := (153 * adjustedMonth + 2) / 5 + day - 1;
    var dayOfEra := yearOfEra * 365 + yearOfEra / 4 - yearOfEra / 100 + dayOfYear;
    era * 146097 + dayOfEra - 719468
  }

  /** Leap years before the given year, counted from year 1. */
  function Leaps(year: int): int { (year - 1) / 4 - (year - 1) / 100 + (year - 1) / 400 }

  lemma LeapStep(year: int)
    ensures Leaps(year + 1) == Leaps(year) + if IsLeap(year) then 1 else 0
  {
    DivStep(year, 4);
    DivStep(year, 100);
    DivStep(year, 400);
    assert year % 100 == (year % 400) % 100 && year % 4 == (year % 100) % 4 by { ModMod(year); }
  }

  lemma DivStep(n: int, k: int)
    requires k == 4 || k == 100 || k == 400
    ensures n / k - (n - 1) / k == if n % k == 0 then 1 else 0
  {
  }

  lemma IsMod100(n: int, q: int, r: int)
    requires n == 100 * q + r && 0 <= r < 100
    ensures n % 100 == r
  {
  }

  lemma IsMod4(n: int, q: int, r: int)
    requires n == 4 * q + r && 0 <= r < 4
    ensures n % 4 == r
  {
  }

  lemma ModMod(n: int)
    ensures n % 100 == (n % 400) % 100 && n % 4 == (n % 100) % 4
  {
    IsMod100(n, 4 * (n / 400) + n % 400 / 100, n % 400 % 100);
    IsMod4(n, 25 * (n / 100) + n % 100 / 4, n % 100 % 4);
  }

  lemma {:induction false} YearStartClosed(year: int)
    ensures YearStart(year) == 365 * (year - 1970) + Leaps(year) - Leaps(1970)
    decreases if year < 1970 then 1970 - year else year - 1970
  {
    if year > 1970 {
      YearStartClosed(year - 1);
      LeapStep(year - 1);
    } else if year < 1970 {
      YearStartClosed(year + 1);
      LeapStep(year);
    }
  }

  /** The rounding of the division makes the era the floor of year / 400, negative years included. */
  lemma EraIsFloor(y: int)
    ensures Quotient(if y >= 0 then y else y - 399, 400) == y / 400
  {
    if y < 0 {
      var q, r := y / 400, y % 400;
      assert -(y - 399) == 400 * (-q) + (399 - r);
      assert (-(y - 399)) / 400 == -q;
    }
  }

  /** Years and centuries inside an era. */
  lemma EraSplits(y: int)
    ensures y / 4 == 100 * (y / 400) + (y % 400) / 4
    ensures y / 100 == 4 * (y / 400) + (y % 400) / 100
  {
    var q, r := y / 400, y % 400;
    assert y == 400 * q + r;
  }

  lemma MarchOffset(year: int, month: int)
    requires 3 <= month <= 12
    ensures MonthStart(year, month) == (if IsLeap(year) then 60 else 59) + (153 * (month - 3) + 2) / 5
  {
    assert MonthStart(year, 3) == if IsLeap(year) then 60 else 59 by { assert MonthStart(year, 2) == 31; }
    if month > 3 { MarchOffset(year, month - 1); }
  }

  /** The computation is the proleptic Gregorian day count, for every year; days past the end of the
      month run on into the next one. */
  lemma DaysFromCivilIsDayNumber(year: int, month: nat, day: nat)
    requires 1 <= month <= 12 && 1 <= day
    ensures DaysFromCivil(year, month, day) == DayNumber(year, month, day)
  {
    var y := if month <= 2 then year - 1 else year;
    EraIsFloor(y);
    EraSplits(y);
    YearStartClosed(year);
    assert Leaps(1970) == 477;
    if month > 2 {
      MarchOffset(year, month);
      LeapStep(year);
    } else {
      assert MonthStart(year, 2) == 31;
    }
  }

  lemma NextDateIsNextDay(d: Date)
    requires IsDate(d)
    ensures var n := NextDate(d);
            DaysFromCivil(n.year, n.month, n.day) == DaysFromCivil(d.year, d.month, d.day) + 1
  {
    var n := NextDate(d);
    DaysFromCivilIsDayNumber(d.year, d.month, d.day);
    DaysFromCivilIsDayNumber(n.year, n.month, n.day);
    MonthEnds(d.year, d.month);
    YearStep(d.year);
  }

  lemma YearStep(year: int)
    ensures YearStart(year + 1) == YearStart(year) + YearLength(year)
  {
  }

  /** The months of a year lie inside it, one after the other. */
  lemma {:induction false} MonthEnds(year: int, month: int)
    requires 1 <= month <= 12
    ensures MonthStart(year, month) + MonthLength(year, month) ==
            if month < 12 then MonthStart(year, month + 1) else YearLength(year)
  {
    if month == 12 { MarchOffset(year, 12); }
  }

  lemma {:induction false} MonthsGrow(year: int, m: int, n: int)
    requires 1 <= m < n <= 12
    ensures MonthStart(year, m) + MonthLength(year, m) <= MonthStart(year, n)
    decreases n
  {
    if m < n - 1 { MonthsGrow(year, m, n - 1); }
  }

  lemma MonthInYear(year: int, month: int)
    requires 1 <= month <= 12
    ensures 0 <= MonthStart(year, month) && MonthStart(year, month) + MonthLength(year, month) <= YearLength(year)
  {
    MonthEnds(year, 12);
    if month < 12 { MonthsGrow(year, month, 12); }
    if month > 1 { MonthsGrow(year, 1, month); }
  }

  lemma {:induction false} YearsGrow(a: int, b: int)
    requires a < b
    ensures YearStart(a) + YearLength(a) <= YearStart(b)
    decreases b - a
  {
    YearStep(b - 1);
    if a < b - 1 { YearsGrow(a, b - 1); }
  }

  /** Later dates have larger day numbers, so no two dates share one. */
  lemma StrictlyMonotone(a: Date, b: Date)
    requires IsDate(a) && IsDate(b)
    ensures Before(a, b) <==> DaysFromCivil(a.year, a.month, a.day) < DaysFromCivil(b.year, b.month, b.day)
    ensures a == b <==> DaysFromCivil(a.year, a.month, a.day) == DaysFromCivil(b.year, b.month, b.day)
  {
    if Before(a, b) {
      Monotone(a, b);
    } else if Before(b, a) {
      Monotone(b, a);
    }
  }

  lemma Monotone(a: Date, b: Date)
    requires IsDate(a) && IsDate(b) && Before(a, b)
    ensures DaysFromCivil(a.year, a.month, a.day) < DaysFromCivil(b.year, b.month, b.day)
  {
    DaysFromCivilIsDayNumber(a.year, a.month, a.day);
    DaysFromCivilIsDayNumber(b.year, b.month, b.day);
    if a.year < b.year {
      YearsGrow(a.year, b.year);
      MonthInYear(a.year, a.month);
      MonthInYear(b.year, b.month);
    } else if a.month < b.month {
      MonthsGrow(a.year, a.month, b.month);
    }
  }
}
