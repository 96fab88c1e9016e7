/** The year fractions of a period: actual days over 360 or 365, thirty-day months, and
    actual days over the length of each calendar year. */
module DayCounts {
  import opened Strings
  import D = CivilDate

  datatype Convention = Act360 | Act365F | Thirty360 | ActAct

  /** The convention of a name; a name that is not known means ACT/360. */
  function ConventionOf(name: string): Convention {
    var n := Strip(Upper(name));
    if n == "ACT/365F" || n == "ACT/365" then Act365F
    else if n == "30/360" || n == "30/360 BOND" then Thirty360
    else if n == "ACT/ACT" || n == "ACT/ACT ISDA" || n == "ACTACT" then ActAct
    else Act360
  }

  function Between(a: D.Date, b: D.Date): real
    requires D.Valid(a) && D.Valid(b)
  {
    (D.Day(b) - D.Day(a)) as real
  }

  /** The day of the month, with a last day of 31 taken back to 30. */
  function Thirtieth(d: int): int {
    if d == 31 then 30 else d
  }

  function Thirty360Days(a: D.Date, b: D.Date): int {
    var start := Thirtieth(a.d);
    var end := if start == 30 then Thirtieth(b.d) else b.d;
    360 * (b.y - a.y) + 30 * (b.m - a.m) + (end - start)
  }

  function DaysInYear(y: int): (r: real)
    ensures r > 0.0
  {
    if D.Leap(y) then 366.0 else 365.0
  }

  function NewYear(y: int): D.Date {
    D.Date(y, 1, 1)
  }

  /** The whole years strictly between two years. */
  function WholeYears(from: int, to: int): real {
    if to - from >= 2 then (to - from - 1) as real else 0.0
  }

  function ActActFraction(a: D.Date, b: D.Date): real
    requires D.Valid(a) && D.Valid(b)
  {
    if a.y == b.y then Between(a, b) / DaysInYear(a.y)
    else Between(a, NewYear(a.y + 1)) / DaysInYear(a.y) + WholeYears(a.y, b.y) + Between(NewYear(b.y), b) / DaysInYear(b.y)
  }

  /** The loop over the years between. */
  method ActActIsda(a: D.Date, b: D.Date) returns (frac: real)
    requires D.Valid(a) && D.Valid(b)
    ensures frac == ActActFraction(a, b)
  {
    hide D.Day, D.Leap, DaysInYear;
    if a == b {
      NothingOver(DaysInYear(a.y));
      return 0.0;
    }
    if a.y == b.y { return Between(a, b) / DaysInYear(a.y); }
    frac := Between(a, NewYear(a.y + 1)) / DaysInYear(a.y);
    ghost var first := frac;
    var y := a.y + 1;
    while y < b.y
      invariant frac == first + WholeYears(a.y, y)
      invariant if a.y < b.y then a.y + 1 <= y <= b.y else y == a.y + 1
      decreases b.y - y
    {
      frac := frac + 1.0;
      y := y + 1;
    }
    frac := frac + Between(NewYear(b.y), b) / DaysInYear(b.y);
  }

  lemma NothingOver(len: real)
    requires len > 0.0
    ensures 0.0 / len == 0.0
  {
  }

  function YearFraction(convention: Convention, a: D.Date, b: D.Date): real
    requires D.Valid(a) && D.Valid(b)
  {
    match convention
    case Act360 => Between(a, b) / 360.0
    case Act365F => Between(a, b) / 365.0
    case Thirty360 => Thirty360Days(a, b) as real / 360.0
    case ActAct => ActActFraction(a, b)
  }

  // ----- actual over actual is a position in the calendar -----

  /** Where a date stands, in years, each year as long as it is. */
  function Position(t: D.Date): real
    requires D.Valid(t)
  {
    t.y as real + Between(NewYear(t.y), t) / DaysInYear(t.y)
  }

  lemma YearIsOne(y: int)
    ensures Between(NewYear(y), NewYear(y + 1)) == DaysInYear(y)
  {
    D.YearLength(y);
  }

  lemma Splits(x: real, y: real, len: real)
    requires len > 0.0 && x + y == len
    ensures x / len == 1.0 - y / len
  {
    SameYear(y, len, len);
    assert len / len == 1.0;
  }

  /** The fraction is the difference of positions, so fractions of adjoining periods add up. */
  lemma ActActIsPosition(a: D.Date, b: D.Date)
    requires D.Valid(a) && D.Valid(b) && a.y <= b.y
    ensures ActActFraction(a, b) == Position(b) - Position(a)
  {
    hide D.Day;
    if a.y < b.y {
      YearIsOne(a.y);
      Splits(Between(a, NewYear(a.y + 1)), Between(NewYear(a.y), a), DaysInYear(a.y));
    } else {
      SameYear(Between(NewYear(a.y), a), Between(NewYear(a.y), b), DaysInYear(a.y));
    }
  }

  lemma SameYear(x: real, y: real, len: real)
    requires len > 0.0
    ensures (y - x) / len == y / len - x / len
  {
  }

  // ----- how the conventions compare -----

  lemma DaysOverYear(x: real, y: int)
    requires x >= 0.0
    ensures x / 366.0 <= x / DaysInYear(y) <= x / 365.0
  {
  }

  lemma NewYearsPosition(y: int)
    ensures Position(NewYear(y)) == y as real
  {
    hide D.Day, DaysInYear;
    NothingOver(DaysInYear(y));
  }

  /** A day moves the position by a part of a year between 1/366 and 1/365. */
  lemma {:induction false} PositionMoves(a: D.Date, b: D.Date)
    requires D.Valid(a) && D.Valid(b) && D.Day(a) <= D.Day(b) && a.y <= b.y
    ensures Between(a, b) / 366.0 <= Position(b) - Position(a) <= Between(a, b) / 365.0
    decreases b.y - a.y
  {
    if a.y == b.y {
      hide D.Day, DaysInYear;
      DaysOverYear(Between(a, b), a.y);
      SameYear(Between(NewYear(a.y), a), Between(NewYear(a.y), b), DaysInYear(a.y));
    } else {
      var next := NewYear(a.y + 1);
      D.DayFollowsOrder(a, next);
      D.DayFollowsOrder(next, b);
      PositionMoves(next, b);
      hide D.Day, DaysInYear;
      NewYearsPosition(a.y + 1);
      YearIsOne(a.y);
      DaysOverYear(Between(a, next), a.y);
      Splits(Between(a, next), Between(NewYear(a.y), a), DaysInYear(a.y));
    }
  }

  lemma YearsFollowDays(a: D.Date, b: D.Date)
    requires D.Valid(a) && D.Valid(b) && D.Day(a) < D.Day(b)
    ensures a.y <= b.y
  {
    D.DayFollowsOrder(a, b);
  }

  /** On every period ACT/360 accrues most, and ACT/365F at least what ACT/ACT does. */
  lemma ActualDaysOrder(a: D.Date, b: D.Date)
    requires D.Valid(a) && D.Valid(b) && D.Day(a) < D.Day(b)
    ensures YearFraction(Act360, a, b) > YearFraction(Act365F, a, b) >= YearFraction(ActAct, a, b) >= Between(a, b) / 366.0
    ensures Between(a, b) >= 1.0
  {
    YearsFollowDays(a, b);
    PositionMoves(a, b);
    ActActIsPosition(a, b);
  }

  /** The days before a month are the common year's, and one more after a leap February. */
  lemma {:induction false} MonthOffset(y: int, m: int)
    requires 1 <= m <= 12
    ensures D.DaysBeforeMonth(y, m) == D.DaysBeforeMonth(1, m) + if m > 2 && D.Leap(y) then 1 else 0
    decreases m
  {
    if m > 1 { MonthOffset(y, m - 1); }
  }

  /** From a date other than 29 February to the same date of the next year. */
  lemma YearOn(a: D.Date)
    requires D.Valid(a) && !D.LeapDay(a)
    ensures var b := D.AddYears(a, 1);
            b == D.Date(a.y + 1, a.m, a.d) && (Between(a, b) == 365.0 || Between(a, b) == 366.0)
    ensures Thirty360Days(a, D.AddYears(a, 1)) == 360
  {
    D.YearLength(a.y);
    D.YearLength(a.y + 1);
    MonthOffset(a.y, a.m);
    MonthOffset(a.y + 1, a.m);
    LeapYearsApart(a.y);
  }

  lemma LeapYearsApart(y: int)
    ensures !(D.Leap(y) && D.Leap(y + 1))
  {
  }

  /** On a whole year ACT/365F accrues at least what 30/360 does. */
  lemma WholeYearOrder(a: D.Date)
    requires D.Valid(a) && !D.LeapDay(a)
    ensures var b := D.AddYears(a, 1);
            D.Day(a) < D.Day(b) && YearFraction(Act365F, a, b) >= YearFraction(Thirty360, a, b) == 1.0
  {
    YearOn(a);
  }

  /** The actual-day conventions count the days between as a year of 360 or of 365 days. */
  lemma ActualDaysCounted(a: D.Date, b: D.Date)
    requires D.Valid(a) && D.Valid(b)
    ensures YearFraction(Act360, a, b) * 360.0 == (D.Day(b) - D.Day(a)) as real
    ensures YearFraction(Act365F, a, b) * 365.0 == (D.Day(b) - D.Day(a)) as real
  {
    hide D.Day;
  }

  /** Under 30/360 a start on the 31st counts as the 30th, and an end on the 31st does after a
      start on the 30th or 31st only; between other days a month is thirty days. */
  lemma Thirty360Rules(a: D.Date, b: D.Date)
    requires D.Valid(a) && D.Valid(b)
    ensures a.d == 31 ==> Thirty360Days(a, b) == Thirty360Days(a.(d := 30), b)
    ensures a.d >= 30 && b.d == 31 ==> Thirty360Days(a, b) == Thirty360Days(a, b.(d := 30))
    ensures a.d < 30 || (a.d == 30 && b.d <= 30)
      ==> Thirty360Days(a, b) == 30 * ((12 * b.y + b.m) - (12 * a.y + a.m)) + (b.d - a.d)
  {
  }

  /** Half a year is half a year, from the middle of a month to its last day is sixteen days,
      and from the 30th to the 31st nothing. */
  lemma Thirty360Examples()
    ensures YearFraction(Thirty360, D.Date(2026, 1, 15), D.Date(2026, 7, 15)) == 0.5
    ensures Thirty360Days(D.Date(2026, 1, 15), D.Date(2026, 1, 31)) == 16
    ensures Thirty360Days(D.Date(2026, 1, 30), D.Date(2026, 1, 31)) == 0
  {
  }

  /** The names of the conventions; a name that is none of them means ACT/360. */
  lemma NamesOfAct365F()
    ensures ConventionOf("ACT/365F") == Act365F && ConventionOf("act/365") == Act365F
    ensures ConventionOf("ACT/360") == Act360 && ConventionOf("ACT/366") == Act360
  {
    assert Upper("ACT/365F") == "ACT/365F" && Upper("act/365") == "ACT/365";
    assert Upper("ACT/360") == "ACT/360" && Upper("ACT/366") == "ACT/366";
  }

  lemma NamesOfThirty360()
    ensures ConventionOf("30/360") == Thirty360 && ConventionOf("30/360 Bond") == Thirty360
  {
    assert Upper("30/360") == "30/360" && Upper("30/360 Bond") == "30/360 BOND";
  }

  lemma NamesOfActAct()
    ensures ConventionOf("ACT/ACT") == ActAct && ConventionOf("ACT/ACT ISDA") == ActAct
    ensures ConventionOf("ActAct") == ActAct
  {
    assert Upper("ACT/ACT") == "ACT/ACT" && Upper("ACT/ACT ISDA") == "ACT/ACT ISDA";
    assert Upper("ActAct") == "ACTACT";
  }

  /** Case and surrounding white space are no part of a name. */
  lemma SpellingOfAName()
    ensures ConventionOf(" Act/365f ") == Act365F
  {
    assert Upper(" Act/365f ") == " ACT/365F ";
    assert Strip(" ACT/365F ") == Strip("ACT/365F ") == Strip("ACT/365F") == "ACT/365F";
  }

  // ----- by day number -----

  /** The date of a day number. */
  ghost function DateOf(n: int): (t: D.Date)
    ensures D.Valid(t)
  {
    if t: D.Date :| D.Valid(t) && D.Day(t) == n then t else NewYear(1)
  }

  ghost function Accrual(name: string, a: int, b: int): real {
    YearFraction(ConventionOf(name), DateOf(a), DateOf(b))
  }

  lemma DateOfDay(t: D.Date)
    requires D.Valid(t)
    ensures DateOf(D.Day(t)) == t
  {
    D.DayFollowsOrder(DateOf(D.Day(t)), t);
  }
}
