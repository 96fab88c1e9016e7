/** The periods of a curve's swaps under the program's own day counts. */
module CurveDayCounts {
  import opened Reals
  import opened Pillars
  import opened Bootstrap
  import opened DayCounts
  import D = CivilDate

  /** The year fraction of every named day count is the program's. */
  ghost predicate ByTheCode(c: Conventions) {
    forall name: string, a: D.Date, b: D.Date :: D.Valid(a) && D.Valid(b) ==>
      c.dcf(name, D.Day(a), D.Day(b)) == YearFraction(ConventionOf(name), a, b)
  }

  ghost function CodeConventions(E: ExpLn, spot: D.Date, dc: string): Conventions {
    Conventions(E, spot, dc, Accrual)
  }

  lemma CodeIsByTheCode(E: ExpLn, spot: D.Date, dc: string)
    ensures ByTheCode(CodeConventions(E, spot, dc))
  {
    hide D.Day, YearFraction, D.Valid, ConventionOf;
    var c := CodeConventions(E, spot, dc);
    forall name: string, a: D.Date, b: D.Date | D.Valid(a) && D.Valid(b)
      ensures c.dcf(name, D.Day(a), D.Day(b)) == YearFraction(ConventionOf(name), a, b)
    {
      DateOfDay(a);
      DateOfDay(b);
    }
  }

  // ----- accruals of at most a year -----

  predicate Short(x: real) {
    0.0 < x <= 1.1
  }

  ghost predicate ShortTaus(ps: seq<Period>) {
    forall i :: 0 <= i < |ps| ==> Short(ps[i].tau)
  }

  lemma ShortAccrual(convention: Convention, a: D.Date, b: D.Date)
    requires D.Valid(a) && D.Valid(b) && D.Day(a) < D.Day(b) <= D.Day(a) + 366
    requires 0 < Thirty360Days(a, b) <= 390
    ensures Short(YearFraction(convention, a, b))
  {
    ActualDaysOrder(a, b);
    hide D.Day, Thirty360Days, ActActFraction;
  }

  /** Stepping back a year from a date other than 29 February. */
  lemma YearBack(mat: D.Date, j: nat)
    requires D.Valid(mat) && !D.LeapDay(mat)
    ensures var a, b := D.AddYears(mat, 0 - (j + 1)), D.AddYears(mat, 0 - j);
            D.Valid(a) && !D.LeapDay(a) && b == D.AddYears(a, 1) && D.Day(b) <= D.Day(a) + 366 && D.Day(a) < D.Day(b)
  {
    YearOn(D.AddYears(mat, 0 - (j + 1)));
  }

  /** The first period, from spot, accrues under 30/360 too. */
  ghost predicate StubAccrues(c: Conventions, mat: D.Date)
    requires D.Valid(c.spot) && D.Valid(mat)
  {
    forall j: nat :: BackDay(mat, j + 1) <= Spot(c) < BackDay(mat, j) ==> 0 < Thirty360Days(c.spot, D.AddYears(mat, 0 - j)) <= 390
  }

  /** Spot lies in one period only. */
  lemma OnlyStub(c: Conventions, mat: D.Date, n: nat)
    requires D.Valid(c.spot) && D.Valid(mat) && BackDay(mat, n + 1) <= Spot(c) < BackDay(mat, n)
    requires 0 < Thirty360Days(c.spot, D.AddYears(mat, 0 - n)) <= 390
    ensures StubAccrues(c, mat)
  {
    hide D.Day, D.AddYears, Thirty360Days;
    forall j: nat | BackDay(mat, j + 1) <= Spot(c) < BackDay(mat, j) ensures j == n {
      if j + 1 <= n { if j + 1 < n { BackDaysDescend(mat, j + 1, n); } }
      if n + 1 <= j { if n + 1 < j { BackDaysDescend(mat, n + 1, j); } }
    }
  }

  lemma FirstIsShort(c: Conventions, dc: string, mat: D.Date, j: nat)
    requires ByTheCode(c) && D.Valid(c.spot) && D.Valid(mat) && !D.LeapDay(mat) && StubAccrues(c, mat)
    requires BackDay(mat, j + 1) <= Spot(c) < BackDay(mat, j)
    ensures Short(c.dcf(dc, Spot(c), BackDay(mat, j)))
  {
    hide D.Day, D.AddYears, YearFraction, Thirty360Days, ConventionOf, Short;
    YearBack(mat, j);
    ShortAccrual(ConventionOf(dc), c.spot, D.AddYears(mat, 0 - j));
  }

  lemma WholeYearIsShort(c: Conventions, dc: string, mat: D.Date, j: nat)
    requires ByTheCode(c) && D.Valid(mat) && !D.LeapDay(mat)
    ensures Short(c.dcf(dc, BackDay(mat, j + 1), BackDay(mat, j)))
  {
    hide D.Day, D.AddYears, YearFraction, Thirty360Days, ConventionOf, Short;
    YearBack(mat, j);
    YearOn(D.AddYears(mat, 0 - (j + 1)));
    ShortAccrual(ConventionOf(dc), D.AddYears(mat, 0 - (j + 1)), D.AddYears(mat, 0 - j));
  }

  /** Under every day count of the program each period accrues something, and at most a
      little more than a year. */
  lemma {:induction false} PeriodsAreShort(c: Conventions, dc: string, mat: D.Date, k: nat)
    requires ByTheCode(c) && D.Valid(c.spot) && D.Valid(mat) && !D.LeapDay(mat) && StubAccrues(c, mat)
    requires k >= 1 && Spot(c) < BackDay(mat, k - 1)
    ensures ShortTaus(PeriodsFrom(c, dc, mat, BackDay(mat, k - 1), k))
    decreases BackDay(mat, k) - Spot(c)
  {
    hide D.Day, D.AddYears, BackDay, Short, ByTheCode, StubAccrues;
    var cursor := BackDay(mat, k - 1);
    if BackDay(mat, k) <= Spot(c) {
      FirstIsShort(c, dc, mat, k - 1);
    } else {
      BackDaysDescend(mat, k, k + 1);
      PeriodsAreShort(c, dc, mat, k + 1);
      WholeYearIsShort(c, dc, mat, k - 1);
    }
  }

  lemma SwapPeriodsAreShort(c: Conventions, item: Item)
    requires ByTheCode(c) && D.Valid(c.spot) && D.Valid(item.mat) && !D.LeapDay(item.mat)
    requires StubAccrues(c, item.mat) && Spot(c) < D.Day(item.mat)
    ensures ShortTaus(Periods(c, item))
  {
    hide D.Day, StubAccrues, ByTheCode;
    assert D.AddYears(item.mat, 0) == item.mat;
    PeriodsAreShort(c, item.dc, item.mat, 1);
  }

  function Accrued(a: real, tau: real, df: real): real {
    a + tau * df
  }

  lemma LastAccrues(E: ExpLn, m: map<int, real>, ps: seq<Period>)
    requires m != map[] && ps != []
    ensures Annuity(E, m, ps) == Accrued(Annuity(E, m, ps[..|ps| - 1]), ps[|ps| - 1].tau, Df(E, m, ps[|ps| - 1].end))
  {
    hide Df;
  }

  /** An annuity of short accruals on the flat part of a curve. */
  lemma {:induction false} FlatAnnuity(E: ExpLn, m: map<int, real>, ps: seq<Period>)
    requires m != map[] && ShortTaus(ps) && forall i :: 0 <= i < |ps| ==> Df(E, m, ps[i].end) == 1.0
    ensures 0.0 <= Annuity(E, m, ps) <= 1.1 * |ps| as real
  {
    hide Df;
    if ps != [] { FlatAnnuity(E, m, ps[..|ps| - 1]); }
  }

  /** At 10% such an annuity of less than nine periods solves to a factor below one. */
  lemma TenPercentSolves(annuity: real, tau: real)
    requires 0.0 <= annuity <= 8.9 && Short(tau)
    ensures Terminal(1.0, 0.1, annuity, tau).Some? && 0.0 < Terminal(1.0, 0.1, annuity, tau).value < 1.0
  {
    QuotientWithin(1.0 - 0.1 * annuity, 1.0 + 0.1 * tau);
  }

  lemma QuotientWithin(x: real, y: real)
    requires 0.11 <= x <= 1.0 < y <= 1.11
    ensures 0.05 < x / y < 1.0
  {
    var q := x / y;
    assert q * y == x && 0.05 * y < 0.1;
    if q >= 1.0 { Scales(1.0, q, y); }
    if q <= 0.05 { Scales(q, 0.05, y); }
  }

  lemma Scales(a: real, b: real, y: real)
    requires a <= b && y > 0.0
    ensures a * y <= b * y
  {
  }
}
