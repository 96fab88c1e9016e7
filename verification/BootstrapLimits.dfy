/** Where the bootstrap's promise about tenor quotes ends: a quote set without a grid whose
    curve does not reprice it, and flat curves on which such sets are worked out. */
module BootstrapLimits {
  import opened Options
  import opened Reals
  import opened Pillars
  import opened Bootstrap
  import opened CurveDayCounts
  import opened DayCounts
  import D = CivilDate

  // ----- flat pieces of a curve -----

  ghost predicate OnesUpTo(m: map<int, real>, p: int) {
    forall k :: k in m && k <= p ==> m[k] == 1.0
  }

  lemma FlatBetween(E: ExpLn, lo: int, hi: int, d: int)
    requires E.Valid()
    ensures LogLinear(E, lo, 1.0, hi, 1.0, d) == 1.0
  {
    LnOfOne(E);
    MixOfZeros(Fraction(d - lo, hi - lo));
  }

  lemma MixOfZeros(t: real)
    ensures Mix(t, 0.0, 0.0) == 0.0
  {
  }

  lemma FlatUpTo(E: ExpLn, m: map<int, real>, p: int, d: int)
    requires E.Valid() && Anchored(m) && p in m && OnesUpTo(m, p) && d <= p
    ensures Df(E, m, d) == 1.0
  {
    hide ExpLn.Valid, LogLinear, Extrapolated;
    if d in m {
      DfAtPillar(E, m, d);
    } else if d > First(m) {
      FlatBetween(E, Floor(m, d), Ceil(m, d), d);
    }
  }

  lemma FlatExtrapolated(E: ExpLn, origin: int, last: int, d: int)
    requires E.Valid()
    ensures Extrapolated(E, origin, last, 1.0, d) == 1.0
  {
    LnOfOne(E);
  }

  lemma FlatBeyond(E: ExpLn, m: map<int, real>, d: int)
    requires E.Valid() && Anchored(m) && OnesUpTo(m, Last(m))
    ensures Df(E, m, d) == 1.0
  {
    hide ExpLn.Valid, LogLinear, Extrapolated;
    if d < Last(m) {
      FlatUpTo(E, m, Last(m), d);
    } else {
      FlatExtrapolated(E, First(m), Last(m), d);
    }
  }

  // ----- a tenor beyond the grid -----

  /** The finished curve of a run leaves one of its quotes off par. */
  ghost predicate LeavesOffPar(c: Conventions, dfSpot: real, m: map<int, real>, items: seq<Item>, k: nat) {
    && Seeded(c, dfSpot, m, items) && k < |items| && Run(c, dfSpot, m, items).Some?
    && Anchored(Run(c, dfSpot, m, items).value)
    && Npv(c, Run(c, dfSpot, m, items).value, items[k]) != 0.0
  }

  /** The curve before the swaps: one on the valuation date and on spot. */
  function FlatSeed(c: Conventions): (m: map<int, real>)
    requires D.Valid(c.spot)
    ensures m != map[]
  {
    var m := map[Spot(c) - 2 := 1.0][Spot(c) := 1.0];
    assert Spot(c) in m;
    m
  }

  function EighteenMonths(c: Conventions): Item
    requires D.Valid(c.spot)
  {
    Item(D.AddMonths(c.spot, 18), 0.1, c.swapDc)
  }

  /** An 18M quote with no annual quotes: its 6M coupon is extrapolated from the spot
      pillar when it is solved and interpolated towards 18M afterwards. It does not reprice
      under any day count of the program. */
  lemma EighteenMonthsAloneDoesNotReprice(c: Conventions)
    requires c.Valid() && ByTheCode(c) && c.spot == D.Date(2026, 1, 15)
    ensures LeavesOffPar(c, 1.0, FlatSeed(c), [EighteenMonths(c)], 0)
  {
    hide D.Day, D.AddYears, D.AddMonths, ExpLn.Valid, Npv, Run, ByTheCode;
    EighteenMonthDates(c);
    LoneTenorDoesNotReprice(c, EighteenMonths(c));
  }

  lemma EighteenMonthDates(c: Conventions)
    requires c.spot == D.Date(2026, 1, 15)
    ensures D.Valid(c.spot)
    ensures var mat := D.AddMonths(c.spot, 18);
            mat == D.Date(2027, 7, 15) && BackDay(mat, 2) <= D.Day(c.spot) < BackDay(mat, 1) < D.Day(mat) && StubAccrues(c, mat)
  {
    var mat := D.AddMonths(c.spot, 18);
    assert mat == D.Date(2027, 7, 15);
    D.DayFollowsOrder(D.Date(2026, 1, 15), D.Date(2026, 7, 15));
    D.DayFollowsOrder(D.Date(2026, 7, 15), D.Date(2027, 7, 15));
    D.DayFollowsOrder(D.Date(2025, 7, 15), D.Date(2026, 1, 15));
    OnlyStub(c, mat, 1);
  }

  /** A quote at 10% with one coupon, solved on a flat curve that ends at spot. */
  lemma LoneTenorDoesNotReprice(c: Conventions, item: Item)
    requires c.Valid() && D.Valid(item.mat) && item.rate == 0.1 && ByTheCode(c) && !D.LeapDay(item.mat) && StubAccrues(c, item.mat)
    requires BackDay(item.mat, 2) <= Spot(c) < BackDay(item.mat, 1) < D.Day(item.mat)
    ensures LeavesOffPar(c, 1.0, FlatSeed(c), [item], 0)
  {
    hide D.Day, D.AddYears, Df, ExpLn.Valid, PeriodsFrom, Annuity, Npv, ByTheCode, StubAccrues, Terminal;
    var m := FlatSeed(c);
    assert Spot(c) in m && Spot(c) - 2 in m;
    assert Anchored(m) && First(m) == Spot(c) - 2 && Last(m) == Spot(c);
    FlatBeyond(c.E, m, D.Day(item.mat));
    FlatBeyond(c.E, m, BackDay(item.mat, 1));
    OneCouponPeriods(c, item);
    SwapPeriodsAreShort(c, item);
    FlatAnnuity(c.E, m, Interior(Periods(c, item)));
    TenPercentSolves(Annuity(c.E, m, Interior(Periods(c, item))), Periods(c, item)[1].tau);
    var items := [item];
    assert items[..0] == [];
    TenorReprices(c, 1.0, m, items, 0);
  }

  lemma OneCouponPeriods(c: Conventions, item: Item)
    requires c.Valid() && D.Valid(item.mat)
    requires BackDay(item.mat, 2) <= Spot(c) < BackDay(item.mat, 1)
    ensures |Periods(c, item)| == 2 && Periods(c, item)[0].end == BackDay(item.mat, 1)
  {
    hide D.Day, D.AddYears;
    var inner := PeriodsFrom(c, item.dc, item.mat, BackDay(item.mat, 1), 2);
    assert |inner| == 1;
  }
}
