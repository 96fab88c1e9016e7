/** Calendar dates: the year, month and day stepping of `relativedelta`, which clips
    the day to the length of the month, and the day number dates are subtracted by. */
module CivilDate {

  datatype Date = Date(y: int, m: int, d: int)

  predicate Leap(y: int) {
    y % 4 == 0 && (y % 100 != 0 || y % 400 == 0)
  }

  function DaysIn(y: int, m: int): int {
    if m == 2 then (if Leap(y) then 29 else 28)
    else if m == 4 || m == 6 || m == 9 || m == 11 then 30
    else 31
  }

  /** The months of a year, and the years that are leap years. */
  lemma MonthLengths(y: int)
    ensures seq(12, i requires 0 <= i < 12 => DaysIn(y, i + 1))
      == [31, if Leap(y) then 29 else 28, 31, 30, 31, 30, 31, 31, 30, 31, 30, 31]
    ensures Leap(2024) && Leap(2000) && !Leap(1900) && !Leap(2026)
  {
    var days := seq(12, i requires 0 <= i < 12 => DaysIn(y, i + 1));
    assert forall i :: 0 <= i < 12 ==> days[i] == DaysIn(y, i + 1);
    hide Leap;
  }

  predicate Valid(t: Date) {
    1 <= t.m <= 12 && 1 <= t.d <= DaysIn(t.y, t.m)
  }

  predicate LeapDay(t: Date) {
    t.m == 2 && t.d == 29
  }

  predicate Before(a: Date, b: Date) {
    a.y < b.y || (a.y == b.y && (a.m < b.m || (a.m == b.m && a.d < b.d)))
  }

  function DaysBeforeYear(y: int): int {
    365 * (y - 1) + (y - 1) / 4 - (y - 1) / 100 + (y - 1) / 400
  }

  function DaysBeforeMonth(y: int, m: int): int
    requires 1 <= m <= 12
  {
    if m == 1 then 0 else DaysBeforeMonth(y, m - 1) + DaysIn(y, m - 1)
  }

  /** The proleptic Gregorian day number (`date.toordinal`). */
  function Day(t: Date): int
    requires Valid(t)
  {
    DaysBeforeYear(t.y) + DaysBeforeMonth(t.y, t.m) + t.d
  }

  function Min(a: int, b: int): int {
    if a <= b then a else b
  }

  /** `t + relativedelta(years=k)`; `k` may be negative. */
  function AddYears(t: Date, k: int): (r: Date)
    ensures Valid(t) ==> Valid(r)
  {
    Date(t.y + k, t.m, Min(t.d, DaysIn(t.y + k, t.m)))
  }

  /** `t + relativedelta(months=n)`. */
  function AddMonths(t: Date, n: nat): (r: Date)
    requires Valid(t)
    ensures Valid(r)
  {
    var k := t.m - 1 + n;
    var y, m := t.y + k / 12, k % 12 + 1;
    Date(y, m, Min(t.d, DaysIn(y, m)))
  }

  function NextDay(t: Date): (r: Date)
    requires Valid(t)
    ensures Valid(r)
  {
    if t.d < DaysIn(t.y, t.m) then Date(t.y, t.m, t.d + 1)
    else if t.m < 12 then Date(t.y, t.m + 1, 1)
    else Date(t.y + 1, 1, 1)
  }

  /** `t + timedelta(days=n)`. */
  function AddDays(t: Date, n: nat): (r: Date)
    requires Valid(t)
    ensures Valid(r)
    decreases n
  {
    if n == 0 then t else AddDays(NextDay(t), n - 1)
  }

  lemma QuotientSteps(y: int)
    ensures y / 4 == (y - 1) / 4 + (if y % 4 == 0 then 1 else 0)
    ensures y / 100 == (y - 1) / 100 + (if y % 100 == 0 then 1 else 0)
    ensures y / 400 == (y - 1) / 400 + (if y % 400 == 0 then 1 else 0)
  {
  }

  lemma CenturiesNest(y: int)
    ensures y % 400 == 0 ==> y % 100 == 0
    ensures y % 100 == 0 ==> y % 4 == 0
  {
  }

  lemma YearLength(y: int)
    ensures DaysBeforeYear(y + 1) == DaysBeforeYear(y) + (if Leap(y) then 366 else 365)
  {
    QuotientSteps(y);
    CenturiesNest(y);
    var a, b, c := y / 4, y / 100, y / 400;
    var a', b', c' := (y - 1) / 4, (y - 1) / 100, (y - 1) / 400;
    assert DaysBeforeYear(y + 1) == 365 * y + a - b + c;
    assert DaysBeforeYear(y) == 365 * (y - 1) + a' - b' + c';
  }

  lemma MonthsFillTheYear(y: int)
    ensures DaysBeforeMonth(y, 12) + DaysIn(y, 12) == if Leap(y) then 366 else 365
  {
    assert DaysBeforeMonth(y, 2) == 31;
    assert DaysBeforeMonth(y, 3) == 31 + DaysIn(y, 2);
    assert DaysBeforeMonth(y, 5) == 92 + DaysIn(y, 2);
    assert DaysBeforeMonth(y, 7) == 153 + DaysIn(y, 2);
    assert DaysBeforeMonth(y, 8) == 184 + DaysIn(y, 2);
    assert DaysBeforeMonth(y, 10) == 245 + DaysIn(y, 2);
    assert DaysBeforeMonth(y, 12) == 306 + DaysIn(y, 2);
  }

  lemma {:induction false} MonthsIncrease(y: int, m1: int, m2: int)
    requires 1 <= m1 < m2 <= 12
    ensures DaysBeforeMonth(y, m1) + DaysIn(y, m1) <= DaysBeforeMonth(y, m2)
    decreases m2 - m1
  {
    if m1 + 1 < m2 { MonthsIncrease(y, m1, m2 - 1); }
  }

  lemma {:induction false} YearsIncrease(y1: int, y2: int)
    requires y1 < y2
    ensures DaysBeforeYear(y1 + 1) <= DaysBeforeYear(y2)
    decreases y2 - y1
  {
  }

  /** Subtracting dates agrees with comparing them. */
  lemma DayFollowsOrder(a: Date, b: Date)
    requires Valid(a) && Valid(b)
    ensures Before(a, b) <==> Day(a) < Day(b)
    ensures a == b <==> Day(a) == Day(b)
  {
    if Before(a, b) { EarlierDateHasSmallerDay(a, b); }
    if Before(b, a) { EarlierDateHasSmallerDay(b, a); }
  }

  lemma EarlierDateHasSmallerDay(a: Date, b: Date)
    requires Valid(a) && Valid(b) && Before(a, b)
    ensures Day(a) < Day(b)
  {
    if a.y < b.y {
      YearsIncrease(a.y, b.y);
      YearLength(a.y);
      MonthsFillTheYear(a.y);
      if a.m < 12 { MonthsIncrease(a.y, a.m, 12); }
      DaysBeforeMonthNonNegative(b.y, b.m);
    } else if a.m < b.m {
      MonthsIncrease(a.y, a.m, b.m);
    }
  }

  lemma {:induction false} DaysBeforeMonthNonNegative(y: int, m: int)
    requires 1 <= m <= 12
    ensures 0 <= DaysBeforeMonth(y, m)
    decreases m
  {
    if m > 1 { DaysBeforeMonthNonNegative(y, m - 1); }
  }

  lemma NextDayMovesDay(t: Date)
    requires Valid(t)
    ensures Day(NextDay(t)) == Day(t) + 1
  {
    YearLength(t.y);
    MonthsFillTheYear(t.y);
    hide DaysBeforeYear;
  }

  /** Date stepping by days is exact: the day number moves by `n`. */
  lemma {:induction false} AddDaysMovesDay(t: Date, n: nat)
    requires Valid(t)
    ensures Day(AddDays(t, n)) == Day(t) + n
    decreases n
  {
    if n > 0 {
      NextDayMovesDay(t);
      hide Day, NextDay;
      AddDaysMovesDay(NextDay(t), n - 1);
    }
  }

  lemma YearsAreOrdered(t: Date, j: int, k: int)
    requires Valid(t) && j < k
    ensures Day(AddYears(t, j)) < Day(AddYears(t, k))
  {
    DayFollowsOrder(AddYears(t, j), AddYears(t, k));
  }

  lemma MonthsAreOrdered(t: Date, n: nat, k: nat)
    requires Valid(t) && n < k
    ensures Day(AddMonths(t, n)) < Day(AddMonths(t, k))
  {
    DayFollowsOrder(AddMonths(t, n), AddMonths(t, k));
  }

  lemma SteppingBackIsMonotone(a: Date, b: Date, k: int)
    requires Valid(a) && Valid(b) && Day(a) <= Day(b)
    ensures Day(AddYears(a, k)) <= Day(AddYears(b, k))
  {
    DayFollowsOrder(a, b);
    DayFollowsOrder(AddYears(a, k), AddYears(b, k));
    DayFollowsOrder(AddYears(b, k), AddYears(a, k));
  }

  /** Anchored year steps compose, except from 29 February through a common year to a leap
      year: stepping to the common year clips to the 28th, and stepping on does not
      restore the 29th. */
  lemma YearStepsComposeIff(t: Date, j: int, k: int)
    requires Valid(t)
    ensures AddYears(AddYears(t, j), k) == AddYears(t, j + k) <==> !LeapDay(t) || Leap(t.y + j) || !Leap(t.y + j + k)
  {
    if t.m == 2 && t.d == 29 && !Leap(t.y + j) {
      assert AddYears(t, j).d == 28;
    }
  }
}
