/** The OIS curve bootstrap: a dense annual grid, then the week and month tenors, each
    new pillar solving its own par equation on the pillars known so far. */
module Bootstrap {
  import opened Options
  import opened Reals
  import opened Pillars
  import D = CivilDate

  datatype Tenor = Years(n: nat) | Months(n: nat) | Weeks(n: nat) | DayCount(n: nat)

  datatype SwapQuote = SwapQuote(tenor: Tenor, rate: real, dayCount: Option<string>)

  /** The conventions of one curve: its spot date, the swap day count, and the year
      fraction of a period under a named day count. */
  datatype Conventions = Conventions(E: ExpLn, spot: D.Date, swapDc: string, dcf: (string, int, int) -> real)
  {
    ghost predicate Valid() {
      E.Valid() && D.Valid(spot)
    }
  }

  /** One step of the bootstrap: a swap to `mat` at `rate`. */
  datatype Item = Item(mat: D.Date, rate: real, dc: string)

  datatype Period = Period(start: int, end: int, tau: real)

  function Spot(c: Conventions): int
    requires D.Valid(c.spot)
  {
    D.Day(c.spot)
  }

  predicate Wellformed(items: seq<Item>) {
    forall i :: 0 <= i < |items| ==> D.Valid(items[i].mat)
  }

  // ----- coupon periods -----

  /** The day of `mat - relativedelta(years=k)`. */
  function BackDay(mat: D.Date, k: int): int
    requires D.Valid(mat)
  {
    D.Day(D.AddYears(mat, 0 - k))
  }

  lemma BackDaysDescend(mat: D.Date, j: int, k: int)
    requires D.Valid(mat) && j < k
    ensures BackDay(mat, k) < BackDay(mat, j)
  {
    D.YearsAreOrdered(mat, 0 - k, 0 - j);
  }

  /** The periods ending on or before `cursor`, stepping back whole years from `mat`. */
  function PeriodsFrom(c: Conventions, dc: string, mat: D.Date, cursor: int, k: nat): (ps: seq<Period>)
    requires D.Valid(c.spot) && D.Valid(mat)
    ensures |ps| >= 1
    decreases BackDay(mat, k) - Spot(c)
  {
    var prev := BackDay(mat, k);
    if prev <= Spot(c) then [Period(Spot(c), cursor, c.dcf(dc, Spot(c), cursor))]
    else
      BackDaysDescend(mat, k, k + 1);
      PeriodsFrom(c, dc, mat, prev, k + 1) + [Period(prev, cursor, c.dcf(dc, prev, cursor))]
  }

  function Periods(c: Conventions, item: Item): (ps: seq<Period>)
    requires D.Valid(c.spot) && D.Valid(item.mat)
    ensures |ps| >= 1
  {
    PeriodsFrom(c, item.dc, item.mat, D.Day(item.mat), 1)
  }

  function Interior(ps: seq<Period>): seq<Period>
    requires ps != []
  {
    ps[..|ps| - 1]
  }

  function Reverse<T>(s: seq<T>): seq<T> {
    if s == [] then [] else [s[|s| - 1]] + Reverse(s[..|s| - 1])
  }

  method AnnualPeriods(c: Conventions, item: Item) returns (periods: seq<Period>)
    requires D.Valid(c.spot) && D.Valid(item.mat)
    ensures periods == Periods(c, item)
  {
    hide D.Day, D.AddYears;
    var spot := Spot(c);
    var back: seq<Period> := [];
    var cursor, k: nat := D.Day(item.mat), 1;
    while true
      invariant k >= 1
      invariant Periods(c, item) == PeriodsFrom(c, item.dc, item.mat, cursor, k) + Reverse(back)
      decreases BackDay(item.mat, k) - spot
    {
      var prev := BackDay(item.mat, k);
      var start := if prev <= spot then spot else prev;
      var p := Period(start, cursor, c.dcf(item.dc, start, cursor));
      ghost var before := back;
      back := back + [p];
      assert back[..|back| - 1] == before;
      assert Reverse(back) == [p] + Reverse(before);
      if prev <= spot {
        break;
      }
      BackDaysDescend(item.mat, k, k + 1);
      cursor, k := prev, k + 1;
    }
    periods := Reverse(back);
  }

  ghost predicate Joined(ps: seq<Period>, i: int)
    requires 0 <= i < |ps| - 1
  {
    ps[i].end == ps[i + 1].start
  }

  /** Consecutive periods, from day `a` to day `b`. */
  ghost predicate Tiles(ps: seq<Period>, a: int, b: int) {
    && ps != []
    && ps[0].start == a && ps[|ps| - 1].end == b
    && forall i :: 0 <= i < |ps| - 1 ==> Joined(ps, i)
  }

  /** Every period ends after `spot` and on or before `d1`. */
  ghost predicate EndsWithin(ps: seq<Period>, spot: int, d1: int) {
    forall i :: 0 <= i < |ps| ==> spot < ps[i].end <= d1
  }

  /** Every period has a length. */
  ghost predicate RunForward(ps: seq<Period>) {
    forall i :: 0 <= i < |ps| ==> ps[i].start < ps[i].end
  }

  /** The periods run from spot to maturity without gaps, each of them forward. */
  lemma {:induction false} PeriodsTile(c: Conventions, dc: string, mat: D.Date, cursor: int, k: nat)
    requires D.Valid(c.spot) && D.Valid(mat)
    ensures Tiles(PeriodsFrom(c, dc, mat, cursor, k), Spot(c), cursor)
    ensures Spot(c) < cursor && BackDay(mat, k) < cursor ==> RunForward(PeriodsFrom(c, dc, mat, cursor, k))
    decreases BackDay(mat, k) - Spot(c)
  {
    hide D.Day, D.AddYears;
    var prev := BackDay(mat, k);
    if prev > Spot(c) {
      BackDaysDescend(mat, k, k + 1);
      PeriodsTile(c, dc, mat, prev, k + 1);
      var rest := PeriodsFrom(c, dc, mat, prev, k + 1);
      var ps := PeriodsFrom(c, dc, mat, cursor, k);
      forall i | 0 <= i < |ps| - 1 ensures Joined(ps, i) {
        if i < |rest| - 1 { assert Joined(rest, i); }
      }
    }
  }

  lemma LastPeriodEnds(c: Conventions, dc: string, mat: D.Date, cursor: int, k: nat)
    requires D.Valid(c.spot) && D.Valid(mat)
    ensures var ps := PeriodsFrom(c, dc, mat, cursor, k); ps[|ps| - 1].end == cursor
  {
  }

  /** The interior coupon dates are one, two, ... years before maturity, all after spot;
      there are none when a year before maturity is not after spot. */
  lemma {:induction false} CouponsStepBack(c: Conventions, dc: string, mat: D.Date, cursor: int, k: nat)
    requires D.Valid(c.spot) && D.Valid(mat)
    ensures var ps := PeriodsFrom(c, dc, mat, cursor, k);
            EndsWithin(Interior(ps), Spot(c), BackDay(mat, k))
    ensures var ps := PeriodsFrom(c, dc, mat, cursor, k);
            forall i :: 0 <= i < |ps| - 1 ==> ps[i].end == BackDay(mat, k + |ps| - 2 - i)
    ensures |PeriodsFrom(c, dc, mat, cursor, k)| == 1 <==> BackDay(mat, k) <= Spot(c)
    decreases BackDay(mat, k) - Spot(c)
  {
    hide D.Day, D.AddYears;
    var prev := BackDay(mat, k);
    if prev > Spot(c) {
      BackDaysDescend(mat, k, k + 1);
      CouponsStepBack(c, dc, mat, prev, k + 1);
      LastPeriodEnds(c, dc, mat, prev, k + 1);
      var rest := PeriodsFrom(c, dc, mat, prev, k + 1);
      var ps := PeriodsFrom(c, dc, mat, cursor, k);
      assert ps == rest + [Period(prev, cursor, c.dcf(dc, prev, cursor))];
      assert Interior(ps) == rest;
      hide PeriodsFrom, BackDay;
      forall i | 0 <= i < |ps| - 1
        ensures ps[i].end == BackDay(mat, k + |ps| - 2 - i) && Spot(c) < ps[i].end <= prev
      {
        assert ps[i] == rest[i];
        if i < |rest| - 1 { assert Interior(rest)[i] == rest[i]; }
      }
    }
  }

  // ----- the par equation -----

  /** The sum of accrual times discount factor at each period end. */
  ghost function Annuity(E: ExpLn, m: map<int, real>, ps: seq<Period>): real
    requires m != map[]
  {
    if ps == [] then 0.0
    else
      var last := ps[|ps| - 1];
      Annuity(E, m, ps[..|ps| - 1]) + last.tau * Df(E, m, last.end)
  }

  /** The floating leg: each period pays its simple forward, discounted at its end. */
  ghost function FloatLeg(E: ExpLn, m: map<int, real>, ps: seq<Period>): real
    requires E.Valid() && Anchored(m)
  {
    if ps == [] then 0.0
    else
      var last := ps[|ps| - 1];
      DfIsPositive(E, m, last.end);
      FloatLeg(E, m, ps[..|ps| - 1])
        + (Df(E, m, last.start) / Df(E, m, last.end) - 1.0) * Df(E, m, last.end)
  }

  /** The value of paying `item.rate` against the floating leg on curve `m`. */
  ghost function Npv(c: Conventions, m: map<int, real>, item: Item): real
    requires c.Valid() && Anchored(m) && D.Valid(item.mat)
  {
    FloatLeg(c.E, m, Periods(c, item)) - item.rate * Annuity(c.E, m, Periods(c, item))
  }

  lemma {:induction false} FloatLegTelescopes(E: ExpLn, m: map<int, real>, ps: seq<Period>, a: int, b: int)
    requires E.Valid() && Anchored(m) && Tiles(ps, a, b)
    ensures FloatLeg(E, m, ps) == Df(E, m, a) - Df(E, m, b)
  {
    var n := |ps|;
    var last := ps[n - 1];
    DfIsPositive(E, m, last.end);
    Forward(Df(E, m, last.start), Df(E, m, last.end));
    if n == 1 {
      assert FloatLeg(E, m, ps[..0]) == 0.0;
    } else {
      assert Joined(ps, n - 2);
      TilesWithoutLast(ps, a, b);
      FloatLegTelescopes(E, m, ps[..n - 1], a, last.start);
    }
  }

  lemma TilesWithoutLast(ps: seq<Period>, a: int, b: int)
    requires Tiles(ps, a, b) && |ps| > 1
    ensures Tiles(ps[..|ps| - 1], a, ps[|ps| - 1].start)
  {
    var init := ps[..|ps| - 1];
    assert Joined(ps, |ps| - 2);
    forall i | 0 <= i < |init| - 1 ensures Joined(init, i) {
      assert Joined(ps, i);
    }
  }

  lemma Forward(x: real, y: real)
    requires y > 0.0
    ensures (x / y - 1.0) * y == x - y
  {
  }

  /** The terminal discount factor, or None when there is no usable one: a zero
      denominator, or a result at or below 1e-8. */
  function Terminal(dfSpot: real, rate: real, annuity: real, lastTau: real): Option<real> {
    var den := 1.0 + rate * lastTau;
    if den == 0.0 then None
    else
      var df := (dfSpot - rate * annuity) / den;
      if df <= 0.00000001 then None else Some(df)
  }

  ghost function Solve(c: Conventions, m: map<int, real>, item: Item, dfSpot: real): Option<real>
    requires D.Valid(c.spot) && D.Valid(item.mat) && m != map[]
  {
    var ps := Periods(c, item);
    Terminal(dfSpot, item.rate, Annuity(c.E, m, Interior(ps)), ps[|ps| - 1].tau)
  }

  lemma AnnuityOneMore(E: ExpLn, m: map<int, real>, ps: seq<Period>, i: nat)
    requires i < |ps| && m != map[]
    ensures Annuity(E, m, ps[..i + 1]) == Annuity(E, m, ps[..i]) + ps[i].tau * Df(E, m, ps[i].end)
  {
    hide Df;
    assert ps[..i + 1][..i] == ps[..i];
  }

  method BootstrapOis(c: Conventions, item: Item, dfPillars: seq<Pillar>, dfSpot: real) returns (r: Option<real>)
    requires D.Valid(c.spot) && D.Valid(item.mat) && AsMap(dfPillars) != map[]
    ensures r == Solve(c, AsMap(dfPillars), item, dfSpot)
  {
    hide D.Day, D.AddYears, D.Valid, PeriodsFrom, Df, ExpLn.Valid, Terminal, SortedItems, Increasing;
    var periods := AnnualPeriods(c, item);
    var sortedPil := SortedDedup(dfPillars);
    assert sortedPil == [] ==> AsMap(sortedPil) == map[];
    assert Annuity(c.E, AsMap(dfPillars), []) == 0.0;
    hide AsMap;
    hide Annuity;
    ghost var interior := Interior(periods);
    var annuity := 0.0;
    var i := 0;
    while i < |periods| - 1
      invariant 0 <= i <= |periods| - 1
      invariant annuity == Annuity(c.E, AsMap(dfPillars), interior[..i])
    {
      var df := InterpDf(c.E, periods[i].end, sortedPil);
      AnnuityOneMore(c.E, AsMap(dfPillars), interior, i);
      annuity := annuity + periods[i].tau * df.value;
      i := i + 1;
    }
    assert interior[..i] == interior;
    r := Terminal(dfSpot, item.rate, annuity, periods[|periods| - 1].tau);
  }

  lemma TerminalSolvesPar(dfSpot: real, rate: real, annuity: real, lastTau: real)
    requires Terminal(dfSpot, rate, annuity, lastTau).Some?
    ensures var df := Terminal(dfSpot, rate, annuity, lastTau).value;
            df > 0.0 && dfSpot - df == rate * (annuity + lastTau * df)
  {
  }

  /** The factor that solves the par equation is the outcome, unless it is at or below
      1e-8: then, and when no factor or every factor solves it, there is none. */
  lemma TerminalRefusesIff(dfSpot: real, rate: real, annuity: real, lastTau: real, df: real)
    ensures 1.0 + rate * lastTau == 0.0 ==> Terminal(dfSpot, rate, annuity, lastTau) == None
    ensures 1.0 + rate * lastTau != 0.0 && dfSpot - df == rate * (annuity + lastTau * df)
      ==> Terminal(dfSpot, rate, annuity, lastTau) == if df <= 0.00000001 then None else Some(df)
  {
    var den := 1.0 + rate * lastTau;
    if den != 0.0 && dfSpot - df == rate * (annuity + lastTau * df) {
      ParSolved(dfSpot, rate, annuity, lastTau, df);
      Divided(dfSpot - rate * annuity, df, den);
    }
  }

  lemma ParSolved(dfSpot: real, rate: real, annuity: real, lastTau: real, df: real)
    requires dfSpot - df == rate * (annuity + lastTau * df)
    ensures df * (1.0 + rate * lastTau) == dfSpot - rate * annuity
  {
    assert rate * (annuity + lastTau * df) == rate * annuity + df * (rate * lastTau);
  }

  lemma Divided(x: real, y: real, d: real)
    requires d != 0.0 && y * d == x
    ensures x / d == y
  {
    assert (y * d) / d == y;
  }

  /** On any later curve that keeps the spot pillar, a solved quote is off par by exactly
      what has happened to its interior coupons and to its own pillar. */
  lemma RepricingError(c: Conventions, m: map<int, real>, n: map<int, real>, item: Item, dfSpot: real)
    requires c.Valid() && D.Valid(item.mat) && Anchored(m) && Anchored(n)
    requires Solve(c, m, item, dfSpot).Some?
    requires Df(c.E, n, Spot(c)) == dfSpot
    ensures var ps := Periods(c, item);
            Npv(c, n, item) == OffPar(item.rate, ps[|ps| - 1].tau,
              Annuity(c.E, m, Interior(ps)) - Annuity(c.E, n, Interior(ps)),
              Solve(c, m, item, dfSpot).value - Df(c.E, n, D.Day(item.mat)))
  {
    hide D.Day, D.AddYears, Df, PeriodsFrom, ExpLn.Valid, Annuity, FloatLeg, Joined, OffPar;
    var ps := Periods(c, item);
    PeriodsTile(c, item.dc, item.mat, D.Day(item.mat), 1);
    FloatLegTelescopes(c.E, n, ps, Spot(c), D.Day(item.mat));
    var a, b := Annuity(c.E, m, Interior(ps)), Annuity(c.E, n, Interior(ps));
    var tau, x, y := ps[|ps| - 1].tau, Solve(c, m, item, dfSpot).value, Df(c.E, n, D.Day(item.mat));
    TerminalSolvesPar(dfSpot, item.rate, a, tau);
    AnnuityOneMore(c.E, n, ps, |ps| - 1);
    assert ps[..|ps|] == ps;
    ParAlgebra(dfSpot, item.rate, tau, a, b, x, y);
  }

  /** A swap worth nothing under one day count is worth nothing under another exactly when
      it pays no rate or the two give the same annuity. */
  lemma OtherDayCountIff(c: Conventions, m: map<int, real>, item: Item, dc: string)
    requires c.Valid() && D.Valid(item.mat) && Anchored(m) && Npv(c, m, item) == 0.0
    ensures Npv(c, m, item.(dc := dc)) == 0.0
      <==> (item.rate == 0.0 || Annuity(c.E, m, Periods(c, item.(dc := dc))) == Annuity(c.E, m, Periods(c, item)))
  {
    hide D.Day, D.AddYears, Df, PeriodsFrom, ExpLn.Valid, Annuity, FloatLeg, Joined, Tiles;
    PeriodsTile(c, item.dc, item.mat, D.Day(item.mat), 1);
    PeriodsTile(c, dc, item.mat, D.Day(item.mat), 1);
    FloatLegTelescopes(c.E, m, Periods(c, item), Spot(c), D.Day(item.mat));
    FloatLegTelescopes(c.E, m, Periods(c, item.(dc := dc)), Spot(c), D.Day(item.mat));
    SameFixedLegIff(item.rate, Annuity(c.E, m, Periods(c, item.(dc := dc))), Annuity(c.E, m, Periods(c, item)));
  }

  lemma SameFixedLegIff(rate: real, a: real, b: real)
    ensures rate * a == rate * b <==> rate == 0.0 || a == b
  {
    assert rate * a - rate * b == rate * (a - b);
  }

  /** The value lost by a fall `annuity` of the interior annuity and a fall `own` of the
      own discount factor. */
  function OffPar(rate: real, lastTau: real, annuity: real, own: real): real {
    rate * annuity + (1.0 + rate * lastTau) * own
  }

  lemma ParAlgebra(dfSpot: real, rate: real, tau: real, a: real, b: real, x: real, y: real)
    requires dfSpot - x == rate * (a + tau * x)
    ensures (dfSpot - y) - rate * (b + tau * y) == OffPar(rate, tau, a - b, x - y)
  {
    assert rate * (a + tau * x) == rate * a + rate * tau * x;
    assert rate * (b + tau * y) == rate * b + rate * tau * y;
    assert (1.0 + rate * tau) * (x - y) == x - y + rate * tau * x - rate * tau * y;
  }

  lemma {:induction false} SameCouponsSameAnnuity(E: ExpLn, m: map<int, real>, n: map<int, real>, ps: seq<Period>)
    requires m != map[] && n != map[]
    requires forall i :: 0 <= i < |ps| ==> Df(E, m, ps[i].end) == Df(E, n, ps[i].end)
    ensures Annuity(E, m, ps) == Annuity(E, n, ps)
  {
    hide Df;
    if ps != [] {
      SameCouponsSameAnnuity(E, m, n, ps[..|ps| - 1]);
      assert Df(E, m, ps[|ps| - 1].end) == Df(E, n, ps[|ps| - 1].end);
    }
  }

  // ----- the run: every quote in turn -----

  /** The pillars after solving every item in order, or None when one is unstable. */
  ghost function Run(c: Conventions, dfSpot: real, m: map<int, real>, items: seq<Item>): (r: Option<map<int, real>>)
    requires D.Valid(c.spot) && Wellformed(items) && m != map[]
    ensures r.Some? ==> r.value != map[]
  {
    if items == [] then Some(m)
    else
      var last := items[|items| - 1];
      match Run(c, dfSpot, m, items[..|items| - 1])
      case None => None
      case Some(pils) =>
        match Solve(c, pils, last, dfSpot)
        case None => None
        case Some(df) => Some(pils[D.Day(last.mat) := df])
  }

  /** What the bootstrap starts from: the valuation date, the deposits and the frozen
      spot pillar, with every swap maturing after spot. */
  ghost predicate Seeded(c: Conventions, dfSpot: real, m: map<int, real>, items: seq<Item>) {
    && c.Valid() && Wellformed(items)
    && Anchored(m) && Spot(c) in m && m[Spot(c)] == dfSpot && First(m) <= Spot(c)
    && forall i :: 0 <= i < |items| ==> Spot(c) < D.Day(items[i].mat)
  }

  /** A run that succeeds succeeds on every prefix, and stays a curve with the frozen
      spot pillar. */
  lemma {:induction false} RunPrefix(c: Conventions, dfSpot: real, m: map<int, real>, items: seq<Item>, k: nat)
    requires Seeded(c, dfSpot, m, items) && k <= |items|
    requires Run(c, dfSpot, m, items).Some?
    ensures Run(c, dfSpot, m, items[..k]).Some?
    ensures var n := Run(c, dfSpot, m, items[..k]).value;
            Anchored(n) && Spot(c) in n && n[Spot(c)] == dfSpot && First(n) == First(m)
    decreases |items|
  {
    hide D.Day, D.AddYears, Df, PeriodsFrom, ExpLn.Valid, Annuity;
    if k < |items| {
      var init := items[..|items| - 1];
      RunPrefix(c, dfSpot, m, init, k);
      assert init[..k] == items[..k];
    } else {
      assert items[..k] == items;
      if items != [] {
        var init := items[..|items| - 1];
        RunPrefix(c, dfSpot, m, init, |init|);
        assert init[..|init|] == init;
        var pils := Run(c, dfSpot, m, init).value;
        var last := items[|items| - 1];
        assert Spot(c) < D.Day(last.mat);
        var ps := Periods(c, last);
        TerminalSolvesPar(dfSpot, last.rate, Annuity(c.E, pils, Interior(ps)), ps[|ps| - 1].tau);
        SetKeepsAnchor(pils, D.Day(last.mat), Solve(c, pils, last, dfSpot).value);
      }
    }
  }

  lemma SetKeepsAnchor(m: map<int, real>, k: int, v: real)
    requires Anchored(m) && First(m) < k && v > 0.0
    ensures Anchored(m[k := v]) && First(m[k := v]) == First(m)
  {
    var n := m[k := v];
    assert First(m) in n && First(n) in n;
  }

  /** After step `k` the pillar of item `k` holds the solved discount factor. */
  lemma RunStep(c: Conventions, dfSpot: real, m: map<int, real>, items: seq<Item>, k: nat)
    requires Seeded(c, dfSpot, m, items) && k < |items|
    requires Run(c, dfSpot, m, items).Some?
    ensures Run(c, dfSpot, m, items[..k]).Some? && Run(c, dfSpot, m, items[..k + 1]).Some?
    ensures var before := Run(c, dfSpot, m, items[..k]).value;
            Solve(c, before, items[k], dfSpot).Some?
            && Run(c, dfSpot, m, items[..k + 1]).value
               == before[D.Day(items[k].mat) := Solve(c, before, items[k], dfSpot).value]
  {
    RunPrefix(c, dfSpot, m, items, k);
    RunPrefix(c, dfSpot, m, items, k + 1);
    assert items[..k + 1][..k] == items[..k];
  }

  /** Items that mature after pillar `p` do not touch the curve up to `p`. */
  lemma {:induction false} LaterItemsKeepEarlierPillars(c: Conventions, dfSpot: real, m: map<int, real>, items: seq<Item>, k: nat, p: int)
    requires Seeded(c, dfSpot, m, items) && k <= |items|
    requires Run(c, dfSpot, m, items).Some?
    requires Run(c, dfSpot, m, items[..k]).Some? && p in Run(c, dfSpot, m, items[..k]).value
    requires forall i :: k <= i < |items| ==> p < D.Day(items[i].mat)
    ensures AgreeUpTo(Run(c, dfSpot, m, items[..k]).value, Run(c, dfSpot, m, items).value, p)
    decreases |items|
  {
    hide D.Day, D.AddYears, Solve, ExpLn.Valid;
    if k == |items| {
      assert items[..k] == items;
    } else {
      var init := items[..|items| - 1];
      RunPrefix(c, dfSpot, m, items, |init|);
      assert init[..k] == items[..k];
      LaterItemsKeepEarlierPillars(c, dfSpot, m, init, k, p);
    }
  }

  /** No later item matures on the day of item `k`. */
  ghost predicate MaturesLast(items: seq<Item>, k: nat)
    requires Wellformed(items) && k < |items|
  {
    forall i :: k < i < |items| ==> D.Day(items[i].mat) != D.Day(items[k].mat)
  }

  /** Items that mature on other days leave a pillar as it is. */
  lemma {:induction false} PillarStands(c: Conventions, dfSpot: real, m: map<int, real>, items: seq<Item>, k: nat, p: int)
    requires Seeded(c, dfSpot, m, items) && k <= |items|
    requires Run(c, dfSpot, m, items).Some?
    requires Run(c, dfSpot, m, items[..k]).Some? && p in Run(c, dfSpot, m, items[..k]).value
    requires forall i :: k <= i < |items| ==> p != D.Day(items[i].mat)
    ensures p in Run(c, dfSpot, m, items).value
    ensures Run(c, dfSpot, m, items).value[p] == Run(c, dfSpot, m, items[..k]).value[p]
    decreases |items|
  {
    hide D.Day, D.AddYears, Solve, ExpLn.Valid;
    if k == |items| {
      assert items[..k] == items;
    } else {
      var init := items[..|items| - 1];
      RunPrefix(c, dfSpot, m, items, |init|);
      assert init[..k] == items[..k];
      PillarStands(c, dfSpot, m, init, k, p);
    }
  }

  // ----- phase 1: the annual grid -----

  /** Items at spot plus 1, 2, 3, ... years. */
  ghost predicate IsGrid(c: Conventions, items: seq<Item>)
    requires D.Valid(c.spot)
  {
    forall i :: 0 <= i < |items| ==> items[i].mat == D.AddYears(c.spot, i + 1)
  }

  /** The value an item's pillar is solved to. */
  ghost function Solved(c: Conventions, dfSpot: real, m: map<int, real>, items: seq<Item>, k: nat): real
    requires Seeded(c, dfSpot, m, items) && k < |items| && Run(c, dfSpot, m, items).Some?
  {
    RunStep(c, dfSpot, m, items, k);
    Solve(c, Run(c, dfSpot, m, items[..k]).value, items[k], dfSpot).value
  }

  /** Every item from `k` on matures after the items before it. */
  ghost predicate MaturesInOrderFrom(items: seq<Item>, k: nat)
    requires Wellformed(items)
  {
    forall i, j :: k <= i < j < |items| ==> D.Day(items[i].mat) < D.Day(items[j].mat)
  }

  /** What stands on the final curve: the spot pillar always, and a solved item's own pillar
      when no later item matures on its day. */
  lemma SpotAndOwnPillarStand(c: Conventions, dfSpot: real, m: map<int, real>, items: seq<Item>, k: nat)
    requires Seeded(c, dfSpot, m, items) && k < |items| && Run(c, dfSpot, m, items).Some?
    ensures Run(c, dfSpot, m, items[..k]).Some? && Anchored(Run(c, dfSpot, m, items[..k]).value)
    ensures Solve(c, Run(c, dfSpot, m, items[..k]).value, items[k], dfSpot).Some?
    ensures Anchored(Run(c, dfSpot, m, items).value)
    ensures Df(c.E, Run(c, dfSpot, m, items).value, Spot(c)) == dfSpot
    ensures MaturesLast(items, k) ==>
      Df(c.E, Run(c, dfSpot, m, items).value, D.Day(items[k].mat)) == Solve(c, Run(c, dfSpot, m, items[..k]).value, items[k], dfSpot).value
  {
    hide D.Day, D.AddYears, Df, PeriodsFrom, ExpLn.Valid, Annuity, FloatLeg, Solve, Run;
    var final := Run(c, dfSpot, m, items).value;
    RunStep(c, dfSpot, m, items, k);
    RunPrefix(c, dfSpot, m, items, k);
    RunPrefix(c, dfSpot, m, items, |items|);
    assert items[..|items|] == items;
    DfAtPillar(c.E, final, Spot(c));
    if MaturesLast(items, k) {
      PillarStands(c, dfSpot, m, items, k + 1, D.Day(items[k].mat));
      DfAtPillar(c.E, final, D.Day(items[k].mat));
    }
  }

  /** What the final curve says about a solved item, whatever was solved after it: it is
      off par by what has happened to its interior coupons and to its own pillar since. */
  lemma FinalRepricingError(c: Conventions, dfSpot: real, m: map<int, real>, items: seq<Item>, k: nat)
    requires Seeded(c, dfSpot, m, items) && k < |items| && Run(c, dfSpot, m, items).Some?
    ensures Run(c, dfSpot, m, items[..k]).Some?
    ensures Anchored(Run(c, dfSpot, m, items).value) && Anchored(Run(c, dfSpot, m, items[..k]).value)
    ensures Solve(c, Run(c, dfSpot, m, items[..k]).value, items[k], dfSpot).Some?
    ensures var before, final, ps := Run(c, dfSpot, m, items[..k]).value, Run(c, dfSpot, m, items).value, Periods(c, items[k]);
            Npv(c, final, items[k]) == OffPar(items[k].rate, ps[|ps| - 1].tau,
              Annuity(c.E, before, Interior(ps)) - Annuity(c.E, final, Interior(ps)),
              Solve(c, before, items[k], dfSpot).value - Df(c.E, final, D.Day(items[k].mat)))
  {
    hide D.Day, D.AddYears, Df, PeriodsFrom, ExpLn.Valid, Annuity, FloatLeg, Solve, Run, Npv, OffPar;
    SpotAndOwnPillarStand(c, dfSpot, m, items, k);
    RepricingError(c, Run(c, dfSpot, m, items[..k]).value, Run(c, dfSpot, m, items).value, items[k], dfSpot);
  }

  /** When no later item matures on its day, only its coupons matter. */
  lemma CouponRepricingError(c: Conventions, dfSpot: real, m: map<int, real>, items: seq<Item>, k: nat)
    requires Seeded(c, dfSpot, m, items) && k < |items| && Run(c, dfSpot, m, items).Some? && MaturesLast(items, k)
    ensures Run(c, dfSpot, m, items[..k]).Some?
    ensures Anchored(Run(c, dfSpot, m, items).value) && Anchored(Run(c, dfSpot, m, items[..k]).value)
    ensures var before, final := Run(c, dfSpot, m, items[..k]).value, Run(c, dfSpot, m, items).value;
            var coupons := Interior(Periods(c, items[k]));
            Npv(c, final, items[k]) == items[k].rate * (Annuity(c.E, before, coupons) - Annuity(c.E, final, coupons))
  {
    hide D.Day, D.AddYears, Df, PeriodsFrom, ExpLn.Valid, Annuity, FloatLeg, Solve, Run, Npv;
    SpotAndOwnPillarStand(c, dfSpot, m, items, k);
    FinalRepricingError(c, dfSpot, m, items, k);
  }

  /** An item whose last interior coupon is on or before a pillar already there, which
      nothing later replaces, reprices to zero on the final curve. */
  lemma CoveredItemReprices(c: Conventions, dfSpot: real, m: map<int, real>, items: seq<Item>, k: nat, p: int)
    requires Seeded(c, dfSpot, m, items) && k < |items| && Run(c, dfSpot, m, items).Some?
    requires MaturesInOrderFrom(items, k)
    requires Run(c, dfSpot, m, items[..k]).Some? && p in Run(c, dfSpot, m, items[..k]).value
    requires BackDay(items[k].mat, 1) <= p < D.Day(items[k].mat)
    ensures Anchored(Run(c, dfSpot, m, items).value)
    ensures Npv(c, Run(c, dfSpot, m, items).value, items[k]) == 0.0
  {
    hide D.Day, D.AddYears, Df, PeriodsFrom, ExpLn.Valid, Annuity, FloatLeg, Solve, Npv;
    CouponRepricingError(c, dfSpot, m, items, k);
    LaterItemsKeepEarlierPillars(c, dfSpot, m, items, k, p);
    CouponsUpToPillarAgree(c, Run(c, dfSpot, m, items[..k]).value, Run(c, dfSpot, m, items).value, items[k], p);
  }

  lemma GridMaturesInOrder(c: Conventions, items: seq<Item>, k: nat)
    requires D.Valid(c.spot) && Wellformed(items) && IsGrid(c, items)
    ensures MaturesInOrderFrom(items, k)
  {
    forall i, j | k <= i < j < |items| ensures D.Day(items[i].mat) < D.Day(items[j].mat) {
      D.YearsAreOrdered(c.spot, i + 1, j + 1);
    }
  }

  /** The pillar before a grid maturity: spot, or the previous grid maturity. */
  lemma GridCoupon(c: Conventions, items: seq<Item>, k: nat)
    requires D.Valid(c.spot) && Wellformed(items) && IsGrid(c, items) && k < |items|
    ensures BackDay(items[k].mat, 1) <= (if k == 0 then Spot(c) else D.Day(items[k - 1].mat))
  {
  }

  /** With the annual grid alone, every annual quote reprices to zero on the final curve,
      from any spot date: each coupon falls on or before the previous pillar, and no
      later pillar moves the curve there. */
  lemma GridReprices(c: Conventions, dfSpot: real, m: map<int, real>, items: seq<Item>, k: nat)
    requires Seeded(c, dfSpot, m, items) && IsGrid(c, items) && k < |items|
    requires Run(c, dfSpot, m, items).Some?
    ensures Anchored(Run(c, dfSpot, m, items).value)
    ensures Npv(c, Run(c, dfSpot, m, items).value, items[k]) == 0.0
  {
    hide D.Day, D.AddYears, Df, PeriodsFrom, ExpLn.Valid, Annuity, FloatLeg, Solve, Npv;
    GridMaturesInOrder(c, items, k);
    GridMaturesInOrder(c, items, 0);
    GridCoupon(c, items, k);
    RunPrefix(c, dfSpot, m, items, k);
    if k > 0 { RunStep(c, dfSpot, m, items, k - 1); }
    CoveredItemReprices(c, dfSpot, m, items, k, if k == 0 then Spot(c) else D.Day(items[k - 1].mat));
  }

  /** Curves that agree up to a pillar on or after the last interior coupon give the
      same interior annuity. */
  lemma CouponsUpToPillarAgree(c: Conventions, m: map<int, real>, n: map<int, real>, item: Item, p: int)
    requires c.Valid() && D.Valid(item.mat) && Anchored(m) && Anchored(n) && AgreeUpTo(m, n, p)
    requires BackDay(item.mat, 1) <= p
    ensures Annuity(c.E, m, Interior(Periods(c, item))) == Annuity(c.E, n, Interior(Periods(c, item)))
  {
    CouponsStepBack(c, item.dc, item.mat, D.Day(item.mat), 1);
    var ps := Interior(Periods(c, item));
    forall i | 0 <= i < |ps| ensures Df(c.E, m, ps[i].end) == Df(c.E, n, ps[i].end) {
      DfDependsOnPillarsUpTo(c.E, m, n, p, ps[i].end);
    }
    SameCouponsSameAnnuity(c.E, m, n, ps);
  }

  // ----- phase 2: the week and month tenors -----

  /** Across a new pillar every coupon moves to the new pillar's side of the old curve,
      or not at all. */
  lemma CouponMoves(E: ExpLn, m: map<int, real>, k: int, v: real, e: int)
    requires E.Valid() && Anchored(m) && First(m) < e < k && v > 0.0
    ensures Anchored(m[k := v])
    ensures v <= Df(E, m, k) ==> Df(E, m[k := v], e) <= Df(E, m, e)
    ensures v >= Df(E, m, k) ==> Df(E, m[k := v], e) >= Df(E, m, e)
    ensures Uncovered(m, e, k) && v != Df(E, m, k) ==> Df(E, m[k := v], e) != Df(E, m, e)
  {
    hide Df, ExpLn.Valid;
    if Uncovered(m, e, k) {
      SetMovesUncoveredDates(E, m, k, v, e);
    } else {
      SetKeepsAnchor(m, k, v);
      var p :| p in m && e <= p < k;
      DfDependsOnPillarsUpTo(E, m, m[k := v], p, e);
    }
  }

  ghost predicate Accrues(ps: seq<Period>) {
    forall i :: 0 <= i < |ps| ==> ps[i].tau > 0.0
  }

  lemma {:induction false} AnnuityGrows(E: ExpLn, m: map<int, real>, n: map<int, real>, ps: seq<Period>)
    requires m != map[] && n != map[] && Accrues(ps)
    requires forall i :: 0 <= i < |ps| ==> Df(E, m, ps[i].end) <= Df(E, n, ps[i].end)
    ensures Annuity(E, m, ps) <= Annuity(E, n, ps)
    ensures ps != [] && Df(E, m, ps[|ps| - 1].end) < Df(E, n, ps[|ps| - 1].end) ==> Annuity(E, m, ps) < Annuity(E, n, ps)
  {
    hide Df;
    if ps != [] {
      AnnuityGrows(E, m, n, ps[..|ps| - 1]);
      var last := ps[|ps| - 1];
      Scaled(last.tau, Df(E, m, last.end), Df(E, n, last.end));
    }
  }

  lemma Scaled(t: real, x: real, y: real)
    requires t > 0.0 && x <= y
    ensures t * x <= t * y && (x < y ==> t * x < t * y)
  {
  }

  /** Adding a swap's own pillar leaves its interior annuity unchanged exactly when its
      last coupon is covered by a pillar before maturity or the new pillar already lies
      on the curve. */
  lemma OwnPillarMovesAnnuity(c: Conventions, m: map<int, real>, item: Item, v: real)
    requires c.Valid() && D.Valid(item.mat) && Anchored(m) && First(m) <= Spot(c) < D.Day(item.mat) && v > 0.0
    requires Accrues(Interior(Periods(c, item))) && Spot(c) < BackDay(item.mat, 1)
    ensures Anchored(m[D.Day(item.mat) := v])
    ensures var coupons := Interior(Periods(c, item));
            Annuity(c.E, m, coupons) == Annuity(c.E, m[D.Day(item.mat) := v], coupons)
            <==> !Uncovered(m, BackDay(item.mat, 1), D.Day(item.mat)) || v == Df(c.E, m, D.Day(item.mat))
  {
    hide D.AddYears, Df, PeriodsFrom, ExpLn.Valid, Annuity;
    var mat, d1 := D.Day(item.mat), BackDay(item.mat, 1);
    var n := m[mat := v];
    var ps := Interior(Periods(c, item));
    LastCoupon(c, item);
    forall i | 0 <= i < |ps|
      ensures v <= Df(c.E, m, mat) ==> Df(c.E, n, ps[i].end) <= Df(c.E, m, ps[i].end)
      ensures v >= Df(c.E, m, mat) ==> Df(c.E, n, ps[i].end) >= Df(c.E, m, ps[i].end)
    {
      CouponMoves(c.E, m, mat, v, ps[i].end);
    }
    CouponMoves(c.E, m, mat, v, d1);
    if v <= Df(c.E, m, mat) { AnnuityGrows(c.E, n, m, ps); }
    if v >= Df(c.E, m, mat) { AnnuityGrows(c.E, m, n, ps); }
    if !Uncovered(m, d1, mat) {
      var p :| p in m && d1 <= p < mat;
      CouponsUpToPillarAgree(c, m, n, item, p);
    }
  }

  lemma LastCoupon(c: Conventions, item: Item)
    requires c.Valid() && D.Valid(item.mat) && Spot(c) < BackDay(item.mat, 1)
    ensures var ps := Interior(Periods(c, item));
            ps != [] && ps[|ps| - 1].end == BackDay(item.mat, 1)
            && EndsWithin(ps, Spot(c), BackDay(item.mat, 1)) && BackDay(item.mat, 1) < D.Day(item.mat)
  {
    CouponsStepBack(c, item.dc, item.mat, D.Day(item.mat), 1);
    BackDaysDescend(item.mat, 0, 1);
    assert D.AddYears(item.mat, 0) == item.mat;
    var all := Periods(c, item);
    assert |all| != 1;
    assert all[|all| - 2].end == BackDay(item.mat, 1 + |all| - 2 - (|all| - 2));
  }

  /** A tenor quote reprices to zero on the final curve exactly when its rate is zero,
      it has no coupon before maturity, a pillar known when it was solved lies between
      its last coupon and its maturity, or the curve already went through its pillar.
      Quotes solved later mature later, and change nothing. */
  lemma TenorReprices(c: Conventions, dfSpot: real, m: map<int, real>, items: seq<Item>, k: nat)
    requires Seeded(c, dfSpot, m, items) && k < |items| && Run(c, dfSpot, m, items).Some?
    requires MaturesInOrderFrom(items, k) && Accrues(Interior(Periods(c, items[k])))
    ensures Run(c, dfSpot, m, items[..k]).Some? && Anchored(Run(c, dfSpot, m, items).value)
    ensures var before := Run(c, dfSpot, m, items[..k]).value;
            var item := items[k];
            && Solve(c, before, item, dfSpot).Some?
            && (Npv(c, Run(c, dfSpot, m, items).value, item) == 0.0
                <==> || item.rate == 0.0
                     || BackDay(item.mat, 1) <= Spot(c)
                     || !Uncovered(before, BackDay(item.mat, 1), D.Day(item.mat))
                     || Solve(c, before, item, dfSpot).value == Df(c.E, before, D.Day(item.mat)))
  {
    hide D.AddYears, D.Day, Df, PeriodsFrom, ExpLn.Valid, Annuity, Npv, Solve, Run;
    var item, final := items[k], Run(c, dfSpot, m, items).value;
    SpotAndOwnPillarStand(c, dfSpot, m, items, k);
    CouponRepricingError(c, dfSpot, m, items, k);
    var before := Run(c, dfSpot, m, items[..k]).value;
    if BackDay(item.mat, 1) <= Spot(c) {
      NoInterior(c, item);
      SameCouponsSameAnnuity(c.E, before, final, Interior(Periods(c, item)));
    } else {
      LastCoupon(c, item);
      RunStep(c, dfSpot, m, items, k);
      RunPrefix(c, dfSpot, m, items, k);
      RunPrefix(c, dfSpot, m, items, k + 1);
      SolvedIsPositive(c, before, item, dfSpot);
      var after := Run(c, dfSpot, m, items[..k + 1]).value;
      LaterItemsKeepEarlierPillars(c, dfSpot, m, items, k + 1, D.Day(item.mat));
      CouponsUpToPillarAgree(c, after, final, item, D.Day(item.mat));
      OwnPillarMovesAnnuity(c, before, item, Solve(c, before, item, dfSpot).value);
    }
  }

  lemma NoInterior(c: Conventions, item: Item)
    requires c.Valid() && D.Valid(item.mat) && BackDay(item.mat, 1) <= Spot(c)
    ensures Interior(Periods(c, item)) == []
  {
  }

  lemma SolvedIsPositive(c: Conventions, m: map<int, real>, item: Item, dfSpot: real)
    requires D.Valid(c.spot) && D.Valid(item.mat) && m != map[] && Solve(c, m, item, dfSpot).Some?
    ensures Solve(c, m, item, dfSpot).value > 0.0
  {
  }

  // ----- the annual grid under the tenor quotes -----

  /** The first `n` items are the annual grid, later ones mature in order, and one that
      matures on a grid date repeats the grid's rate and day count. */
  ghost predicate GridShape(c: Conventions, items: seq<Item>, n: nat) {
    && D.Valid(c.spot) && Wellformed(items)
    && n <= |items| && IsGrid(c, items[..n]) && MaturesInOrderFrom(items, n)
    && forall i, g :: n <= i < |items| && 0 <= g < n && items[i].mat == items[g].mat ==> items[i] == items[g]
  }

  /** And spot is not 29 February. */
  ghost predicate GridThenTenors(c: Conventions, items: seq<Item>, n: nat) {
    GridShape(c, items, n) && !D.LeapDay(c.spot)
  }

  /** Every coupon of a grid maturity is spot plus a smaller number of whole years. */
  lemma GridCouponsAreGridPillars(c: Conventions, items: seq<Item>, n: nat, g: nat, i: nat)
    requires GridThenTenors(c, items, n) && g < n && i < |Periods(c, items[g])| - 1
    ensures exists h :: 0 <= h < g && Periods(c, items[g])[i].end == D.Day(items[h].mat)
  {
    hide D.Day, D.DaysIn, PeriodsFrom;
    CouponsStepBack(c, items[g].dc, items[g].mat, D.Day(items[g].mat), 1);
    var ps := Periods(c, items[g]);
    var j := 1 + |ps| - 2 - i;
    assert Interior(ps)[i] == ps[i];
    assert items[..n][g] == items[g];
    D.YearStepsComposeIff(c.spot, g + 1, 0 - j);
    assert ps[i].end == D.Day(D.AddYears(c.spot, g + 1 - j));
    assert D.AddYears(c.spot, 0) == c.spot;
    if g + 1 - j <= 0 {
      if g + 1 - j < 0 { D.YearsAreOrdered(c.spot, g + 1 - j, 0); }
      assert false;
    }
    var h := g - j;
    assert items[..n][h] == items[h];
  }

  lemma GridDaysDiffer(c: Conventions, items: seq<Item>, n: nat, g: nat, h: nat)
    requires GridThenTenors(c, items, n) && g < n && h < n && g != h
    ensures D.Day(items[g].mat) != D.Day(items[h].mat)
  {
    hide D.Day, D.AddYears;
    assert items[..n][g] == items[g] && items[..n][h] == items[h];
    if g < h { D.YearsAreOrdered(c.spot, g + 1, h + 1); } else { D.YearsAreOrdered(c.spot, h + 1, g + 1); }
  }

  /** The grid pillars solved so far hold the values they were solved to. */
  ghost predicate GridStands(c: Conventions, dfSpot: real, m: map<int, real>, items: seq<Item>, n: nat, j: nat, pils: map<int, real>)
    requires Seeded(c, dfSpot, m, items) && Run(c, dfSpot, m, items).Some? && n <= |items|
  {
    forall g :: 0 <= g < n && g < j ==>
      D.Day(items[g].mat) in pils && pils[D.Day(items[g].mat)] == Solved(c, dfSpot, m, items, g)
  }

  /** On any two curves on which the earlier grid pillars stand, a grid maturity has the
      same interior annuity. */
  lemma GridAnnuityStands(c: Conventions, dfSpot: real, m: map<int, real>, items: seq<Item>, n: nat, g: nat,
      a: map<int, real>, b: map<int, real>)
    requires Seeded(c, dfSpot, m, items) && Run(c, dfSpot, m, items).Some?
    requires GridThenTenors(c, items, n) && g < n && Anchored(a) && Anchored(b)
    requires GridStands(c, dfSpot, m, items, n, g, a) && GridStands(c, dfSpot, m, items, n, g, b)
    ensures Annuity(c.E, a, Interior(Periods(c, items[g]))) == Annuity(c.E, b, Interior(Periods(c, items[g])))
  {
    hide D.Day, Df, PeriodsFrom, ExpLn.Valid, Annuity, Solved, Run;
    var ps := Interior(Periods(c, items[g]));
    forall i | 0 <= i < |ps| ensures Df(c.E, a, ps[i].end) == Df(c.E, b, ps[i].end) {
      GridCouponsAreGridPillars(c, items, n, g, i);
      var h :| 0 <= h < g && Periods(c, items[g])[i].end == D.Day(items[h].mat);
      DfAtPillar(c.E, a, ps[i].end);
      DfAtPillar(c.E, b, ps[i].end);
    }
    SameCouponsSameAnnuity(c.E, a, b, ps);
  }

  /** No tenor quote moves a grid pillar: one that lands on it solves the same equation
      on the same coupons. */
  lemma {:induction false} GridStandsThroughout(c: Conventions, dfSpot: real, m: map<int, real>, items: seq<Item>, n: nat, j: nat)
    requires Seeded(c, dfSpot, m, items) && Run(c, dfSpot, m, items).Some?
    requires GridThenTenors(c, items, n) && j <= |items|
    ensures Run(c, dfSpot, m, items[..j]).Some? && Anchored(Run(c, dfSpot, m, items[..j]).value)
    ensures GridStands(c, dfSpot, m, items, n, j, Run(c, dfSpot, m, items[..j]).value)
    decreases j
  {
    hide D.Day, D.AddYears, Df, PeriodsFrom, ExpLn.Valid, Annuity, Run;
    RunPrefix(c, dfSpot, m, items, j);
    if j > 0 {
      GridStandsThroughout(c, dfSpot, m, items, n, j - 1);
      RunStep(c, dfSpot, m, items, j - 1);
      var before, after := Run(c, dfSpot, m, items[..j - 1]).value, Run(c, dfSpot, m, items[..j]).value;
      forall g | 0 <= g < n && g < j
        ensures D.Day(items[g].mat) in after && after[D.Day(items[g].mat)] == Solved(c, dfSpot, m, items, g)
      {
        if g < j - 1 && D.Day(items[g].mat) == D.Day(items[j - 1].mat) {
          D.DayFollowsOrder(items[g].mat, items[j - 1].mat);
          if j - 1 < n { GridDaysDiffer(c, items, n, g, j - 1); assert false; }
          assert items[j - 1] == items[g];
          GridStandsThroughout(c, dfSpot, m, items, n, g);
          GridAnnuityStands(c, dfSpot, m, items, n, g, before, Run(c, dfSpot, m, items[..g]).value);
        }
      }
    }
  }

  /** Every annual quote reprices to zero on the final curve, tenor quotes included. */
  lemma AnnualReprices(c: Conventions, dfSpot: real, m: map<int, real>, items: seq<Item>, n: nat, g: nat)
    requires Seeded(c, dfSpot, m, items) && Run(c, dfSpot, m, items).Some?
    requires GridThenTenors(c, items, n) && g < n
    ensures Anchored(Run(c, dfSpot, m, items).value)
    ensures Npv(c, Run(c, dfSpot, m, items).value, items[g]) == 0.0
  {
    hide D.Day, D.AddYears, Df, PeriodsFrom, ExpLn.Valid, Annuity, Run, Npv, Solve;
    var final := Run(c, dfSpot, m, items).value;
    GridStandsThroughout(c, dfSpot, m, items, n, |items|);
    GridStandsThroughout(c, dfSpot, m, items, n, g);
    RunPrefix(c, dfSpot, m, items, |items|);
    assert items[..|items|] == items;
    RunStep(c, dfSpot, m, items, g);
    var before := Run(c, dfSpot, m, items[..g]).value;
    DfAtPillar(c.E, final, Spot(c));
    DfAtPillar(c.E, final, D.Day(items[g].mat));
    GridAnnuityStands(c, dfSpot, m, items, n, g, before, final);
    RepricingError(c, before, final, items[g], dfSpot);
  }

  /** A tenor quote whose last coupon is not beyond the annual grid reprices to zero. */
  lemma TenorWithinGridReprices(c: Conventions, dfSpot: real, m: map<int, real>, items: seq<Item>, n: nat, k: nat)
    requires Seeded(c, dfSpot, m, items) && Run(c, dfSpot, m, items).Some?
    requires GridThenTenors(c, items, n) && n <= k < |items|
    requires BackDay(items[k].mat, 1) <= (if n == 0 then Spot(c) else D.Day(items[n - 1].mat))
    ensures Anchored(Run(c, dfSpot, m, items).value)
    ensures Npv(c, Run(c, dfSpot, m, items).value, items[k]) == 0.0
  {
    hide D.Day, D.AddYears, Df, PeriodsFrom, ExpLn.Valid, Annuity, Run, Npv, Solve;
    var d1, mat := BackDay(items[k].mat, 1), D.Day(items[k].mat);
    GridStandsThroughout(c, dfSpot, m, items, n, k);
    RunPrefix(c, dfSpot, m, items, k);
    if d1 <= Spot(c) {
      CoveredItemReprices(c, dfSpot, m, items, k, Spot(c));
    } else {
      var g := GridPillarAfter(c, items, n, d1, n - 1);
      GridPillarBeforeMaturity(c, items, n, k, g);
      CoveredItemReprices(c, dfSpot, m, items, k, D.Day(items[g].mat));
    }
  }

  /** The first grid maturity on or after day `d`. */
  lemma {:induction false} GridPillarAfter(c: Conventions, items: seq<Item>, n: nat, d: int, last: nat) returns (g: nat)
    requires GridThenTenors(c, items, n) && last < n && d <= D.Day(items[last].mat)
    ensures g <= last && d <= D.Day(items[g].mat)
    ensures g == 0 || D.Day(items[g - 1].mat) < d
    decreases last
  {
    g := last;
    if last > 0 && d <= D.Day(items[last - 1].mat) {
      g := GridPillarAfter(c, items, n, d, last - 1);
    }
  }

  lemma GridPillarBeforeMaturity(c: Conventions, items: seq<Item>, n: nat, k: nat, g: nat)
    requires GridThenTenors(c, items, n) && k < |items| && g < n
    requires (if g == 0 then Spot(c) else D.Day(items[g - 1].mat)) < BackDay(items[k].mat, 1)
    ensures D.Day(items[g].mat) < D.Day(items[k].mat)
  {
    hide D.Day;
    assert items[..n][g] == items[g];
    if g > 0 { assert items[..n][g - 1] == items[g - 1]; }
    D.YearStepsComposeIff(c.spot, g + 1, 0 - 1);
    assert D.AddYears(c.spot, 0) == c.spot;
    if D.Day(items[k].mat) <= D.Day(items[g].mat) {
      D.SteppingBackIsMonotone(items[k].mat, items[g].mat, 0 - 1);
      assert false;
    }
  }
}
