/** An annual quote that carries a day count of its own: it is solved under the swap day
    count, and what it is then worth under its own. */
module OwnDayCount {
  import opened Options
  import opened Reals
  import opened Pillars
  import opened Bootstrap
  import opened BootstrapCurve
  import opened BootstrapLimits
  import opened CurveDayCounts
  import opened DayCounts
  import opened Strings
  import D = CivilDate

  /** An annual quote is solved under the swap day count whatever its own: under its own it
      is worth nothing exactly when it pays no rate or the day counts give one annuity. */
  lemma AnnuitiesDecide(c: Conventions, dfSpot: real, m: map<int, real>, qs: seq<SwapQuote>, q: SwapQuote)
    requires Consistent(c, qs) && Seeded(c, dfSpot, m, []) && q in qs && q.tenor.Years?
    requires Run(c, dfSpot, m, AllItems(c, qs)).Some? && Anchored(Run(c, dfSpot, m, AllItems(c, qs)).value)
    ensures var final, own := Run(c, dfSpot, m, AllItems(c, qs)).value, ItemOf(c, q);
            Npv(c, final, own) == 0.0 <==>
            (q.rate == 0.0 || Annuity(c.E, final, Periods(c, own)) == Annuity(c.E, final, Periods(c, own.(dc := c.swapDc))))
  {
    hide D.Day, D.AddYears, D.AddMonths, D.AddDays, Run, Npv, ExpLn.Valid, Annuity, Periods, AllItems, Consistent;
    var final, own := Run(c, dfSpot, m, AllItems(c, qs)).value, ItemOf(c, q);
    EveryQuoteReprices(c, dfSpot, m, qs, q);
    OtherDayCountIff(c, final, own.(dc := c.swapDc), own.dc);
    assert own.(dc := c.swapDc).(dc := own.dc) == own;
  }

  // ----- periods that accrue at least as much -----

  /** The same periods, each accruing at least as much. */
  ghost predicate AtLeastAs(ps: seq<Period>, qs: seq<Period>) {
    |ps| == |qs| && forall i :: 0 <= i < |ps| ==>
      ps[i].start == qs[i].start && ps[i].end == qs[i].end && ps[i].tau >= qs[i].tau
  }

  lemma {:induction false} MoreAnnuity(E: ExpLn, m: map<int, real>, ps: seq<Period>, qs: seq<Period>)
    requires E.Valid() && Anchored(m) && AtLeastAs(ps, qs)
    ensures Annuity(E, m, ps) >= Annuity(E, m, qs)
    ensures Annuity(E, m, ps) == Annuity(E, m, qs) <==> ps == qs
  {
    hide Df, ExpLn.Valid, Accrued;
    if ps != [] {
      var n := |ps| - 1;
      MoreAnnuity(E, m, ps[..n], qs[..n]);
      DfIsPositive(E, m, ps[n].end);
      LastAccrues(E, m, ps);
      LastAccrues(E, m, qs);
      MoreAccrues(Annuity(E, m, ps[..n]), ps[n].tau, Annuity(E, m, qs[..n]), qs[n].tau, Df(E, m, ps[n].end));
      assert ps == ps[..n] + [ps[n]] && qs == qs[..n] + [qs[n]];
    }
  }

  lemma MoreAccrues(a: real, x: real, b: real, y: real, df: real)
    requires a >= b && x >= y && df > 0.0
    ensures Accrued(a, x, df) >= Accrued(b, y, df) && (Accrued(a, x, df) == Accrued(b, y, df) <==> a == b && x == y)
  {
    assert (x - y) * df == x * df - y * df;
    if x > y { Gains(x - y, df); }
  }

  lemma Gains(d: real, df: real)
    requires d > 0.0 && df > 0.0
    ensures d * df > 0.0
  {
  }

  /** Where one day count accrues at least as much on every period, a swap worth nothing
      under one is worth nothing under the other exactly when it pays no rate or no period
      differs. */
  lemma DominatedIff(c: Conventions, m: map<int, real>, item: Item, dc: string)
    requires c.Valid() && D.Valid(item.mat) && Anchored(m) && Npv(c, m, item) == 0.0
    requires AtLeastAs(Periods(c, item.(dc := dc)), Periods(c, item)) || AtLeastAs(Periods(c, item), Periods(c, item.(dc := dc)))
    ensures Npv(c, m, item.(dc := dc)) == 0.0 <==> item.rate == 0.0 || Periods(c, item.(dc := dc)) == Periods(c, item)
  {
    hide D.Day, D.AddYears, Periods, Annuity, Npv, ExpLn.Valid, AtLeastAs;
    OtherDayCountIff(c, m, item, dc);
    var ps, qs := Periods(c, item.(dc := dc)), Periods(c, item);
    if AtLeastAs(ps, qs) { MoreAnnuity(c.E, m, ps, qs); } else { MoreAnnuity(c.E, m, qs, ps); }
  }

  // ----- the years of an annual quote -----

  /** Year `i` after spot under a day count. */
  function YearAfter(c: Conventions, dc: string, i: nat): real
    requires D.Valid(c.spot)
  {
    YearFraction(ConventionOf(dc), D.AddYears(c.spot, i), D.AddYears(c.spot, i + 1))
  }

  function YearPeriod(c: Conventions, dc: string, i: nat): Period
    requires D.Valid(c.spot)
  {
    Period(D.Day(D.AddYears(c.spot, i)), D.Day(D.AddYears(c.spot, i + 1)), YearAfter(c, dc, i))
  }

  /** Stepping back from a grid date is stepping on from spot. */
  lemma BackOnGrid(c: Conventions, n: nat, k: nat)
    requires D.Valid(c.spot) && !D.LeapDay(c.spot) && k <= n
    ensures D.AddYears(D.AddYears(c.spot, n), 0 - k) == D.AddYears(c.spot, n - k)
  {
    D.YearStepsComposeIff(c.spot, n, 0 - k);
  }

  lemma {:induction false} YearPeriods(c: Conventions, dc: string, n: nat, k: nat)
    requires D.Valid(c.spot) && !D.LeapDay(c.spot) && ByTheCode(c) && 1 <= k <= n
    ensures var mat := D.AddYears(c.spot, n);
            PeriodsFrom(c, dc, mat, BackDay(mat, k - 1), k) == seq(n - k + 1, i requires 0 <= i => YearPeriod(c, dc, i))
    decreases n - k
  {
    hide D.Day, D.AddYears, YearFraction, ConventionOf;
    var mat := D.AddYears(c.spot, n);
    BackOnGrid(c, n, k);
    BackOnGrid(c, n, k - 1);
    var prev := D.AddYears(c.spot, n - k);
    assert c.dcf(dc, D.Day(prev), D.Day(D.AddYears(c.spot, n - k + 1))) == YearAfter(c, dc, n - k);
    if k < n {
      D.YearsAreOrdered(c.spot, 0, n - k);
      NoYears(c.spot);
      BackDaysDescend(mat, k, k + 1);
      YearPeriods(c, dc, n, k + 1);
    } else {
      NoYears(c.spot);
    }
  }

  /** The periods of an annual quote are the years from spot. */
  lemma AnnualYears(c: Conventions, item: Item, n: nat)
    requires D.Valid(c.spot) && !D.LeapDay(c.spot) && ByTheCode(c) && n >= 1 && item.mat == D.AddYears(c.spot, n)
    ensures Periods(c, item) == seq(n, i requires 0 <= i => YearPeriod(c, item.dc, i))
  {
    hide D.Day, D.AddYears, YearPeriod, PeriodsFrom, ByTheCode;
    NoYears(item.mat);
    YearPeriods(c, item.dc, n, 1);
  }

  // ----- which day counts can be compared -----

  /** `p` accrues at least what `q` does on every whole year. */
  predicate Over(p: Convention, q: Convention) {
    p == q || p == Act360 || (p == Act365F && q != Act360)
  }

  lemma OverAccrues(p: Convention, q: Convention, a: D.Date)
    requires D.Valid(a) && !D.LeapDay(a) && Over(p, q)
    ensures var b := D.AddYears(a, 1);
            YearFraction(p, a, b) >= YearFraction(q, a, b) && (p == Act360 != q ==> YearFraction(p, a, b) > YearFraction(q, a, b))
  {
    hide D.Day, Thirty360Days, ActActFraction, D.AddYears;
    WholeYearOrder(a);
    ActualDaysOrder(a, D.AddYears(a, 1));
  }

  /** The two day counts accrue the same in each of the first `n` years. */
  ghost predicate SameYears(c: Conventions, dc: string, dc': string, n: nat)
    requires D.Valid(c.spot)
  {
    forall i: nat :: i < n ==> YearAfter(c, dc, i) == YearAfter(c, dc', i)
  }

  lemma YearAfterSpot(c: Conventions, i: nat)
    requires D.Valid(c.spot) && !D.LeapDay(c.spot)
    ensures var a := D.AddYears(c.spot, i); D.Valid(a) && !D.LeapDay(a) && D.AddYears(a, 1) == D.AddYears(c.spot, i + 1)
  {
    D.YearStepsComposeIff(c.spot, i, 1);
  }

  lemma OverIsAtLeast(c: Conventions, item: Item, other: Item, n: nat)
    requires D.Valid(c.spot) && !D.LeapDay(c.spot) && ByTheCode(c) && n >= 1
    requires item.mat == other.mat == D.AddYears(c.spot, n) && Over(ConventionOf(item.dc), ConventionOf(other.dc))
    ensures AtLeastAs(Periods(c, item), Periods(c, other))
  {
    hide D.Day, D.AddYears, Periods, ByTheCode, YearFraction, ConventionOf, Over;
    AnnualYears(c, item, n);
    AnnualYears(c, other, n);
    forall i: nat | i < n ensures YearAfter(c, item.dc, i) >= YearAfter(c, other.dc, i) {
      YearAfterSpot(c, i);
      OverAccrues(ConventionOf(item.dc), ConventionOf(other.dc), D.AddYears(c.spot, i));
    }
  }

  lemma SamePeriodsIff(c: Conventions, item: Item, other: Item, n: nat)
    requires D.Valid(c.spot) && !D.LeapDay(c.spot) && ByTheCode(c) && n >= 1
    requires item.mat == other.mat == D.AddYears(c.spot, n)
    ensures Periods(c, item) == Periods(c, other) <==> SameYears(c, item.dc, other.dc, n)
  {
    hide D.Day, D.AddYears, Periods, ByTheCode, YearAfter;
    AnnualYears(c, item, n);
    AnnualYears(c, other, n);
    var ps, qs := Periods(c, item), Periods(c, other);
    assert forall i: nat :: i < n ==> ps[i] == YearPeriod(c, item.dc, i) && qs[i] == YearPeriod(c, other.dc, i);
    if ps == qs {
      forall i: nat | i < n ensures YearAfter(c, item.dc, i) == YearAfter(c, other.dc, i) {
        assert ps[i].tau == qs[i].tau;
      }
    }
  }

  // ----- before the curve is built -----

  /** One of the two accrues at least what the other does: any two of the program's day
      counts but ACT/ACT and 30/360. */
  predicate Comparable(p: Convention, q: Convention) {
    Over(p, q) || Over(q, p)
  }

  lemma ComparableIff(p: Convention, q: Convention)
    ensures Comparable(p, q) <==> {p, q} != {ActAct, Thirty360}
  {
    if p == ActAct && q == Thirty360 { assert {p, q} == {ActAct, Thirty360}; }
    if p == Thirty360 && q == ActAct { assert {p, q} == {ActAct, Thirty360}; }
    if {p, q} == {ActAct, Thirty360} { assert p in {p, q} && q in {p, q} && ActAct in {p, q} && Thirty360 in {p, q}; }
  }

  /** Whether an annual quote will be worth nothing under its own day count, from the quote
      and the spot date alone: exactly when it pays no rate or the two day counts accrue the
      same in each of its years. ACT/ACT and 30/360 cannot be told apart in this way: in some
      years the one accrues more, in some the other. */
  lemma OwnDayCountRepricesIff(c: Conventions, dfSpot: real, m: map<int, real>, qs: seq<SwapQuote>, q: SwapQuote)
    requires Consistent(c, qs) && Seeded(c, dfSpot, m, []) && q in qs && q.tenor.Years? && ByTheCode(c)
    requires Run(c, dfSpot, m, AllItems(c, qs)).Some? && Anchored(Run(c, dfSpot, m, AllItems(c, qs)).value)
    requires {ConventionOf(DcOf(c, q)), ConventionOf(c.swapDc)} != {ActAct, Thirty360}
    ensures Npv(c, Run(c, dfSpot, m, AllItems(c, qs)).value, ItemOf(c, q)) == 0.0
      <==> (q.rate == 0.0 || SameYears(c, DcOf(c, q), c.swapDc, q.tenor.n))
  {
    hide D.Day, D.AddYears, D.AddMonths, D.AddDays, Run, Npv, ExpLn.Valid, Annuity, Periods, AllItems, ByTheCode, ConventionOf, SameYears, AtLeastAs, Over;
    var final, own, n := Run(c, dfSpot, m, AllItems(c, qs)).value, ItemOf(c, q), q.tenor.n;
    assert D.Valid(c.spot) && !D.LeapDay(c.spot) && n >= 1 && own.mat == D.AddYears(c.spot, n);
    hide Consistent;
    var swapped := own.(dc := c.swapDc);
    EveryQuoteReprices(c, dfSpot, m, qs, q);
    ComparableIff(ConventionOf(own.dc), ConventionOf(c.swapDc));
    if Over(ConventionOf(own.dc), ConventionOf(c.swapDc)) {
      OverIsAtLeast(c, own, swapped, n);
    } else {
      OverIsAtLeast(c, swapped, own, n);
    }
    assert swapped.(dc := own.dc) == own;
    DominatedIff(c, final, swapped, own.dc);
    SamePeriodsIff(c, own, swapped, n);
  }

  /** So with ACT/360 on one side only it reprices exactly when it pays no rate. */
  lemma OnlyOneIsAct360(c: Conventions, dc: string, dc': string, n: nat)
    requires D.Valid(c.spot) && !D.LeapDay(c.spot) && n >= 1
    requires (ConventionOf(dc) == Act360) != (ConventionOf(dc') == Act360)
    ensures {ConventionOf(dc), ConventionOf(dc')} != {ActAct, Thirty360} && !SameYears(c, dc, dc', n)
  {
    hide D.Day, D.AddYears, YearFraction, ConventionOf;
    YearAfterSpot(c, 0);
    NoYears(c.spot);
    ComparableIff(ConventionOf(dc), ConventionOf(dc'));
    if ConventionOf(dc) == Act360 {
      OverAccrues(ConventionOf(dc), ConventionOf(dc'), c.spot);
    } else {
      OverAccrues(ConventionOf(dc'), ConventionOf(dc), c.spot);
    }
    assert YearAfter(c, dc, 0) != YearAfter(c, dc', 0);
  }

  /** One year at 10% under ACT/365F. */
  const YEAR_UNDER_365: SwapQuote := SwapQuote(Years(1), 0.1, Some("ACT/365F"))

  /** Alone on an ACT/360 curve it does not reprice under its own day count. */
  lemma YearUnder365DoesNotReprice(c: Conventions)
    requires c.Valid() && ByTheCode(c) && !D.LeapDay(c.spot) && c.swapDc == "ACT/360"
    ensures var qs := [YEAR_UNDER_365];
            && Consistent(c, qs) && Seeded(c, 1.0, FlatSeed(c), []) && Run(c, 1.0, FlatSeed(c), AllItems(c, qs)).Some?
            && Anchored(Run(c, 1.0, FlatSeed(c), AllItems(c, qs)).value)
            && Npv(c, Run(c, 1.0, FlatSeed(c), AllItems(c, qs)).value, ItemOf(c, YEAR_UNDER_365)) != 0.0
  {
    hide D.Day, D.AddYears, D.AddMonths, D.AddDays, Npv, ExpLn.Valid, Annuity, ByTheCode, SameYears, Comparable, YearFraction;
    var qs, q := [YEAR_UNDER_365], YEAR_UNDER_365;
    OneYearItems(c);
    OneYearSolves(c);
    NamesDiffer();
    OnlyOneIsAct360(c, "ACT/365F", "ACT/360", 1);
    EveryQuoteReprices(c, 1.0, FlatSeed(c), qs, q);
    OwnDayCountRepricesIff(c, 1.0, FlatSeed(c), qs, q);
  }

  lemma NamesDiffer()
    ensures ConventionOf("ACT/365F") == Act365F && ConventionOf("ACT/360") == Act360
  {
    assert Upper("ACT/365F") == "ACT/365F" && Upper("ACT/360") == "ACT/360";
  }

  lemma OneYearItems(c: Conventions)
    requires D.Valid(c.spot) && !D.LeapDay(c.spot)
    ensures Consistent(c, [YEAR_UNDER_365])
    ensures AllItems(c, [YEAR_UNDER_365]) == [Item(D.AddYears(c.spot, 1), 0.1, c.swapDc)]
  {
    hide D.Day, D.AddYears, D.AddMonths, D.AddDays;
    var qs := [YEAR_UNDER_365];
    assert qs[..0] == [];
    assert AnnualSparse(qs) == [YearRate(1, 0.1)] && NonYear(qs) == [];
    assert SortYears([YearRate(1, 0.1)]) == [YearRate(1, 0.1)];
    assert ItemsOf(c, []) == [];
  }

  lemma OneYearSolves(c: Conventions)
    requires c.Valid() && ByTheCode(c) && !D.LeapDay(c.spot)
    ensures var items := [Item(D.AddYears(c.spot, 1), 0.1, c.swapDc)];
            Seeded(c, 1.0, FlatSeed(c), []) && Run(c, 1.0, FlatSeed(c), items).Some?
  {
    hide D.Day, D.AddYears, Df, ExpLn.Valid, ByTheCode, Terminal, Periods, First, Annuity;
    var item, m := Item(D.AddYears(c.spot, 1), 0.1, c.swapDc), FlatSeed(c);
    SeedIsSeeded(c);
    assert [item][..0] == [];
    AnnualYears(c, item, 1);
    YearIsShort(c);
    assert Annuity(c.E, m, []) == 0.0 by { NoPeriods(c.E, m); }
    TenPercentSolves(0.0, YearAfter(c, c.swapDc, 0));
    assert Interior(Periods(c, item)) == [];
  }

  lemma NoPeriods(E: ExpLn, m: map<int, real>)
    requires m != map[]
    ensures Annuity(E, m, []) == 0.0
  {
  }

  lemma SeedIsSeeded(c: Conventions)
    requires c.Valid()
    ensures Seeded(c, 1.0, FlatSeed(c), [])
  {
    hide D.Day, ExpLn.Valid;
    var m := FlatSeed(c);
    assert Spot(c) - 2 in m && First(m) in m;
  }

  lemma YearIsShort(c: Conventions)
    requires D.Valid(c.spot) && !D.LeapDay(c.spot)
    ensures Short(YearAfter(c, c.swapDc, 0))
  {
    hide D.Day, D.AddYears, YearFraction, Thirty360Days, Short;
    NoYears(c.spot);
    YearOn(c.spot);
    ShortAccrual(ConventionOf(c.swapDc), c.spot, D.AddYears(c.spot, 1));
  }
}
