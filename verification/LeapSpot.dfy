/** The spot date of 29 February, and only it: from any other spot date every annual quote
    reprices, and from every 29 February, under every day count of the program, some quote
    set leaves one off par. */
module LeapSpot {
  import opened Options
  import opened Reals
  import opened Pillars
  import opened Bootstrap
  import opened BootstrapLimits
  import opened CurveDayCounts
  import opened DayCounts
  import D = CivilDate

  // ----- counting coupons on a flat curve -----

  lemma {:induction false} PeriodCount(c: Conventions, dc: string, mat: D.Date, cursor: int, k: nat, n: nat)
    requires D.Valid(c.spot) && D.Valid(mat) && 1 <= k <= n
    requires BackDay(mat, n) <= Spot(c) < BackDay(mat, n - 1)
    ensures |PeriodsFrom(c, dc, mat, cursor, k)| == n - k + 1
    decreases n - k
  {
    hide D.Day, D.AddYears;
    if k < n {
      if k < n - 1 { BackDaysDescend(mat, k, n - 1); }
      PeriodCount(c, dc, mat, BackDay(mat, k), k + 1, n);
    }
  }

  /** Conventions whose year fractions are the program's. */
  ghost predicate Counted(c: Conventions) {
    c.Valid() && ByTheCode(c)
  }

  /** A swap at 10% whose coupons lie on the flat part of the curve solves to less than one. */
  lemma SolvesBelowOne(c: Conventions, m: map<int, real>, item: Item, p: int, n: nat)
    requires Counted(c) && D.Valid(item.mat) && Anchored(m) && p in m && OnesUpTo(m, p) && 1 <= n <= 9
    requires BackDay(item.mat, n) <= Spot(c) < BackDay(item.mat, n - 1)
    requires BackDay(item.mat, 1) <= p && item.rate == 0.1 && ShortTaus(Periods(c, item))
    ensures |Periods(c, item)| == n
    ensures Solve(c, m, item, 1.0).Some? && 0.0 < Solve(c, m, item, 1.0).value < 1.0
  {
    hide D.Day, D.AddYears, Df, ExpLn.Valid, Annuity, PeriodsFrom, Terminal, ByTheCode, Short;
    PeriodCount(c, item.dc, item.mat, D.Day(item.mat), 1, n);
    CouponsStepBack(c, item.dc, item.mat, D.Day(item.mat), 1);
    var ps := Interior(Periods(c, item));
    forall i | 0 <= i < |ps| ensures Df(c.E, m, ps[i].end) == 1.0 {
      FlatUpTo(c.E, m, p, ps[i].end);
    }
    FlatAnnuity(c.E, m, ps);
    TenPercentSolves(Annuity(c.E, m, ps), Periods(c, item)[n - 1].tau);
  }

  lemma ZeroRateSolvesToOne(c: Conventions, m: map<int, real>, item: Item)
    requires Counted(c) && D.Valid(item.mat) && m != map[] && item.rate == 0.0
    ensures Solve(c, m, item, 1.0) == Some(1.0)
  {
  }

  /** Between a pillar off 1 and a pillar at 1 the curve is off 1. */
  lemma OffOneBetween(E: ExpLn, m: map<int, real>, k: int, d: int, p: int)
    requires E.Valid() && Anchored(m) && k in m && p in m && First(m) <= k < d < p && m[k] != 1.0 && m[p] == 1.0
    requires forall j :: j in m ==> j <= k || p <= j
    ensures Df(E, m, d) != 1.0
  {
    hide Df;
    LnOfOne(E);
    DfIsALine(E, m, d);
    assert Floor(m, d) == k && Ceil(m, k) == p;
    var w := E.ln(m[k]);
    assert E.exp(w) == m[k] && E.exp(0.0) == 1.0;
    LineBetween(w, Days(d - k), Days(p - k));
    ExpOrder(E, Line(w, Days(d - k), (0.0 - w) / Days(p - k)), 0.0);
  }

  lemma LineBetween(w: real, x: real, y: real)
    requires w != 0.0 && 0.0 < x < y
    ensures Line(w, x, (0.0 - w) / y) != 0.0
  {
  }

  // ----- the quote set -----

  /** The day of spot plus `i` years. */
  function GridDay(c: Conventions, i: nat): int
    requires D.Valid(c.spot)
  {
    D.Day(D.AddYears(c.spot, i))
  }

  /** Spot on 29 February, the next leap year `n` years on. */
  ghost predicate LeapStart(c: Conventions, n: nat) {
    && c.spot == D.Date(c.spot.y, 2, 29) && D.Leap(c.spot.y)
    && D.Leap(c.spot.y + n) && (n == 4 || (n == 8 && !D.Leap(c.spot.y + 4)))
  }

  lemma FourYearsOn(q: int)
    ensures (4 * q) % 4 == 0
  {
  }

  lemma AfterTheCentury(h: int)
    ensures (100 * h + 4) % 100 == 4
  {
  }

  lemma NextLeapYear(y: int) returns (n: nat)
    requires D.Leap(y)
    ensures D.Leap(y + n) && (n == 4 || (n == 8 && !D.Leap(y + 4)))
  {
    n := if D.Leap(y + 4) then 4 else 8;
    var q := y / 4;
    FourYearsOn(q + 1);
    FourYearsOn(q + 2);
    assert y + 4 == 4 * (q + 1) && y + 8 == 4 * (q + 2);
    if !D.Leap(y + 4) {
      var h := (y + 4) / 100;
      AfterTheCentury(h);
      assert y + 8 == 100 * h + 4;
    }
  }

  /** Half a year before the next leap day. */
  function TenorDate(c: Conventions, n: nat): D.Date
    requires D.Valid(c.spot) && n >= 1
  {
    D.AddMonths(c.spot, 12 * n - 6)
  }

  /** Zero rates for the first `n` years, 10% for the year after the next leap year, and 10%
      for a tenor half a year before it. */
  function LeapItems(c: Conventions, n: nat): (items: seq<Item>)
    requires D.Valid(c.spot) && n >= 1
    ensures |items| == n + 2 && Wellformed(items)
  {
    seq(n, i requires 0 <= i < n => Item(D.AddYears(c.spot, i + 1), 0.0, c.swapDc))
    + [Item(D.AddYears(c.spot, n + 1), 0.1, c.swapDc), Item(TenorDate(c, n), 0.1, c.swapDc)]
  }

  /** The last coupon of the long swap falls the day before the pillar of the leap year, and
      the tenor's pillar between it and the pillar of the year before. */
  lemma LeapDates(c: Conventions, n: nat)
    requires LeapStart(c, n)
    ensures D.Valid(c.spot)
    ensures var mat, ten := D.AddYears(c.spot, n + 1), TenorDate(c, n);
            && GridDay(c, n - 1) < D.Day(ten) < BackDay(mat, 1) < GridDay(c, n) < D.Day(mat)
            && BackDay(mat, 2) == GridDay(c, n - 1) && BackDay(mat, n + 1) <= Spot(c) < BackDay(mat, n)
            && BackDay(ten, n) <= Spot(c) < BackDay(ten, n - 1) && BackDay(ten, 1) <= GridDay(c, n - 1)
            && Spot(c) < GridDay(c, n - 1)
  {
    hide D.Day;
    var y := c.spot.y;
    var mat, ten := D.AddYears(c.spot, n + 1), TenorDate(c, n);
    assert mat == D.Date(y + n + 1, 2, 28);
    assert ten == D.Date(y + n - 1, 8, 29) by {
      assert (1 + (12 * n - 6)) / 12 == n - 1 && (1 + (12 * n - 6)) % 12 == 7;
    }
    assert D.AddYears(c.spot, n - 1) == D.Date(y + n - 1, 2, 28) && D.AddYears(c.spot, n) == D.Date(y + n, 2, 29);
    D.DayFollowsOrder(D.Date(y + n - 1, 2, 28), ten);
    D.DayFollowsOrder(ten, D.Date(y + n, 2, 28));
    D.DayFollowsOrder(D.Date(y + n, 2, 28), D.Date(y + n, 2, 29));
    D.DayFollowsOrder(D.Date(y + n, 2, 29), mat);
    D.DayFollowsOrder(D.Date(y, 2, 28), c.spot);
    D.DayFollowsOrder(c.spot, D.Date(y + 1, 2, 28));
    D.DayFollowsOrder(D.Date(y - 1, 8, 29), c.spot);
    D.DayFollowsOrder(c.spot, D.Date(y, 8, 29));
    D.DayFollowsOrder(D.Date(y + n - 2, 8, 29), D.Date(y + n - 1, 2, 28));
    D.DayFollowsOrder(c.spot, D.Date(y + n - 1, 2, 28));
  }

  /** Spot to the first coupon accrues under 30/360 too: 359 days to 28 February, half a
      year to 29 August. */
  lemma LeapStubs(c: Conventions, n: nat)
    requires LeapStart(c, n)
    ensures D.Valid(c.spot) && !D.LeapDay(D.AddYears(c.spot, n + 1)) && !D.LeapDay(TenorDate(c, n))
    ensures StubAccrues(c, D.AddYears(c.spot, n + 1)) && StubAccrues(c, TenorDate(c, n))
  {
    LeapDates(c, n);
    var y := c.spot.y;
    var mat, ten := D.AddYears(c.spot, n + 1), TenorDate(c, n);
    assert mat == D.Date(y + n + 1, 2, 28) && D.AddYears(mat, 0 - n) == D.Date(y + 1, 2, 28);
    assert ten == D.Date(y + n - 1, 8, 29) && D.AddYears(ten, 0 - (n - 1)) == D.Date(y, 8, 29) by {
      assert (1 + (12 * n - 6)) / 12 == n - 1 && (1 + (12 * n - 6)) % 12 == 7;
    }
    hide D.Day, D.AddYears, D.AddMonths;
    OnlyStub(c, mat, n);
    OnlyStub(c, ten, n - 1);
  }

  /** The curve after the first `k` years: ones, up to the pillar of year `k`. */
  ghost predicate FlatThrough(c: Conventions, m: map<int, real>, k: nat)
    requires D.Valid(c.spot)
  {
    && Anchored(m) && First(m) == Spot(c) - 2 && Spot(c) in m && GridDay(c, k) in m
    && (k > 0 ==> GridDay(c, k - 1) in m)
    && forall p :: p in m ==> m[p] == 1.0 && (p == GridDay(c, k) || (p < GridDay(c, k) && (k > 0 ==> p <= GridDay(c, k - 1))))
  }

  lemma SeedIsFlat(c: Conventions)
    requires D.Valid(c.spot)
    ensures FlatThrough(c, FlatSeed(c), 0)
  {
    assert D.AddYears(c.spot, 0) == c.spot;
    var m := FlatSeed(c);
    assert Spot(c) - 2 in m && First(m) in m;
  }

  lemma FlatExtends(c: Conventions, m: map<int, real>, k: nat)
    requires D.Valid(c.spot) && FlatThrough(c, m, k)
    ensures FlatThrough(c, m[GridDay(c, k + 1) := 1.0], k + 1)
  {
    hide D.Day, D.AddYears;
    D.YearsAreOrdered(c.spot, k, k + 1);
    if k > 0 { D.YearsAreOrdered(c.spot, 0, k); }
    assert First(m) <= GridDay(c, k) by { assert GridDay(c, k) in m; }
    SetKeepsAnchor(m, GridDay(c, k + 1), 1.0);
  }

  lemma {:induction false} ZeroYears(c: Conventions, n: nat, k: nat)
    requires Counted(c) && n >= 1 && k <= n
    ensures Run(c, 1.0, FlatSeed(c), LeapItems(c, n)[..k]).Some?
    ensures FlatThrough(c, Run(c, 1.0, FlatSeed(c), LeapItems(c, n)[..k]).value, k)
  {
    hide D.Day, D.AddYears, Solve, FlatThrough, ExpLn.Valid;
    var items := LeapItems(c, n);
    if k == 0 {
      SeedIsFlat(c);
    } else {
      ZeroYears(c, n, k - 1);
      var m := Run(c, 1.0, FlatSeed(c), items[..k - 1]).value;
      assert items[..k][..k - 1] == items[..k - 1];
      assert items[k - 1] == Item(D.AddYears(c.spot, k), 0.0, c.swapDc);
      ZeroRateSolvesToOne(c, m, items[k - 1]);
      FlatExtends(c, m, k - 1);
    }
  }

  /** The long swap and the tenor solve to less than one on the flat curve. */
  lemma TwoSolved(c: Conventions, n: nat, m: map<int, real>, m': map<int, real>, long: Item, tenor: Item)
    requires Counted(c) && LeapStart(c, n) && long.mat == D.AddYears(c.spot, n + 1) && tenor.mat == TenorDate(c, n)
    requires long.rate == 0.1 && tenor.rate == 0.1 && Anchored(m) && Anchored(m')
    requires GridDay(c, n) in m && OnesUpTo(m, GridDay(c, n)) && GridDay(c, n) in m' && OnesUpTo(m', GridDay(c, n))
    ensures |Periods(c, long)| == n + 1 && ShortTaus(Periods(c, long))
    ensures Solve(c, m, long, 1.0).Some? && 0.0 < Solve(c, m, long, 1.0).value < 1.0
    ensures Solve(c, m', tenor, 1.0).Some? && 0.0 < Solve(c, m', tenor, 1.0).value < 1.0
  {
    hide D.Day, D.AddYears, D.AddMonths, Df, ExpLn.Valid, PeriodsFrom, Annuity, ByTheCode, StubAccrues, ShortTaus, Solve;
    LeapDates(c, n);
    LeapStubs(c, n);
    SwapPeriodsAreShort(c, long);
    SwapPeriodsAreShort(c, tenor);
    SolvesBelowOne(c, m, long, GridDay(c, n), n + 1);
    SolvesBelowOne(c, m', tenor, GridDay(c, n), n);
  }

  /** Annuities that agree but at the last coupon differ. */
  lemma LastCouponTells(E: ExpLn, flat: map<int, real>, m: map<int, real>, ps: seq<Period>)
    requires flat != map[] && m != map[] && ps != [] && Short(ps[|ps| - 1].tau)
    requires forall i :: 0 <= i < |ps| - 1 ==> Df(E, flat, ps[i].end) == Df(E, m, ps[i].end)
    requires Df(E, flat, ps[|ps| - 1].end) == 1.0 != Df(E, m, ps[|ps| - 1].end)
    ensures Annuity(E, flat, ps) != Annuity(E, m, ps)
  {
    hide Df, Accrued;
    SameCouponsSameAnnuity(E, flat, m, ps[..|ps| - 1]);
    var last := ps[|ps| - 1];
    LastAccrues(E, flat, ps);
    LastAccrues(E, m, ps);
    Tells(Annuity(E, flat, ps[..|ps| - 1]), last.tau, Df(E, flat, last.end), Df(E, m, last.end));
  }

  lemma Tells(a: real, tau: real, x: real, y: real)
    requires Short(tau) && x != y
    ensures Accrued(a, tau, x) != Accrued(a, tau, y)
  {
    NotNothing(tau, x - y);
    assert tau * (x - y) == tau * x - tau * y;
  }

  lemma NotNothing(tau: real, d: real)
    requires tau > 0.0 && d != 0.0
    ensures tau * d != 0.0
  {
  }

  /** Once the tenor's pillar is off one, so is the last coupon of the long swap. */
  lemma LastCouponMoves(c: Conventions, n: nat, flat: map<int, real>, m: map<int, real>, long: Item, k: int)
    requires Counted(c) && LeapStart(c, n) && long.mat == D.AddYears(c.spot, n + 1) && k == D.Day(TenorDate(c, n))
    requires Anchored(flat) && GridDay(c, n) in flat && OnesUpTo(flat, GridDay(c, n))
    requires Anchored(m) && First(m) <= k && GridDay(c, n - 1) in m && OnesUpTo(m, GridDay(c, n - 1))
    requires k in m && m[k] != 1.0 && GridDay(c, n) in m && m[GridDay(c, n)] == 1.0
    requires forall p :: p in m ==> p <= k || GridDay(c, n) <= p
    requires |Periods(c, long)| == n + 1 && ShortTaus(Periods(c, long))
    ensures Annuity(c.E, flat, Interior(Periods(c, long))) != Annuity(c.E, m, Interior(Periods(c, long)))
  {
    hide D.Day, D.AddYears, D.AddMonths, Df, ExpLn.Valid, PeriodsFrom, Annuity, First, ByTheCode;
    LeapDates(c, n);
    var mat := long.mat;
    CouponsStepBack(c, long.dc, mat, D.Day(mat), 1);
    var all, ps := Periods(c, long), Interior(Periods(c, long));
    forall i | 0 <= i < n - 1 ensures Df(c.E, flat, ps[i].end) == 1.0 == Df(c.E, m, ps[i].end) {
      assert ps[i] == all[i] && all[i].end == BackDay(mat, n - i);
      if i < n - 2 { BackDaysDescend(mat, 2, n - i); }
      FlatUpTo(c.E, m, GridDay(c, n - 1), ps[i].end);
      FlatUpTo(c.E, flat, GridDay(c, n), ps[i].end);
    }
    var last := ps[n - 1];
    assert last == all[n - 1] && last.end == BackDay(mat, 1);
    FlatUpTo(c.E, flat, GridDay(c, n), last.end);
    OffOneBetween(c.E, m, k, last.end, GridDay(c, n));
    LastCouponTells(c.E, flat, m, ps);
  }

  /** The flat curve with the long swap's pillar and the tenor's pillar on it. */
  lemma TwoPillarsMore(c: Conventions, n: nat, m: map<int, real>, v: real, w: real)
    requires LeapStart(c, n) && D.Valid(c.spot) && FlatThrough(c, m, n) && v > 0.0 && w > 0.0
    ensures var a, k := GridDay(c, n + 1), D.Day(TenorDate(c, n));
            var m' := m[a := v];
            var m'' := m'[k := w];
            && Anchored(m') && Anchored(m'') && First(m'') <= Spot(c) && First(m'') <= k
            && OnesUpTo(m, GridDay(c, n)) && GridDay(c, n) in m' && OnesUpTo(m', GridDay(c, n))
            && GridDay(c, n - 1) in m'' && OnesUpTo(m'', GridDay(c, n - 1)) && GridDay(c, n) in m'' && m''[GridDay(c, n)] == 1.0
            && a in m'' && m''[a] == v && k in m'' && m''[k] == w
            && forall p :: p in m'' ==> p <= k || GridDay(c, n) <= p
  {
    hide D.Day, D.AddYears, D.AddMonths, First;
    LeapDates(c, n);
    SetKeepsAnchor(m, GridDay(c, n + 1), v);
    SetKeepsAnchor(m[GridDay(c, n + 1) := v], D.Day(TenorDate(c, n)), w);
  }

  /** From every spot date of 29 February there is a quote set, on its annual grid, whose
      finished curve leaves an annual quote off par. */
  lemma LeapDaySpotDoesNotReprice(c: Conventions, n: nat)
    requires Counted(c) && LeapStart(c, n)
    ensures D.Valid(c.spot) && GridShape(c, LeapItems(c, n), n + 1) && SwapCounted(c, LeapItems(c, n), n + 1)
    ensures LeavesOffPar(c, 1.0, FlatSeed(c), LeapItems(c, n), n)
  {
    hide D.Day, D.AddYears, D.AddMonths, Df, ExpLn.Valid, PeriodsFrom, Annuity, Npv, Solve, First, OnesUpTo, FlatThrough, Interior, ByTheCode, ShortTaus;
    LeapDates(c, n);
    var items, seed := LeapItems(c, n), FlatSeed(c);
    var long, tenor := items[n], items[n + 1];
    ZeroYears(c, n, n);
    var m := Run(c, 1.0, seed, items[..n]).value;
    FlatHasPillars(c, m, n);
    TwoPillarsMore(c, n, m, 1.0, 1.0);
    TwoSolved(c, n, m, m, long, tenor);
    var v := Solve(c, m, long, 1.0).value;
    TwoPillarsMore(c, n, m, v, 1.0);
    var m' := m[D.Day(long.mat) := v];
    TwoSolved(c, n, m, m', long, tenor);
    var w := Solve(c, m', tenor, 1.0).value;
    TwoPillarsMore(c, n, m, v, w);
    var m'' := m'[D.Day(tenor.mat) := w];
    TwoStepsMore(c, seed, items, n, m, v, w);
    LeapShape(c, n);
    LastCouponMoves(c, n, m, m'', long, D.Day(tenor.mat));
    hide Run, Seeded, FlatSeed;
    OffParBy(c, items, n, seed, m, m'', v);
  }

  lemma FlatHasPillars(c: Conventions, m: map<int, real>, k: nat)
    requires D.Valid(c.spot) && FlatThrough(c, m, k)
    ensures Anchored(m) && GridDay(c, k) in m && Spot(c) in m && m[Spot(c)] == 1.0
  {
  }

  lemma TwoStepsMore(c: Conventions, seed: map<int, real>, items: seq<Item>, n: nat, m: map<int, real>, v: real, w: real)
    requires D.Valid(c.spot) && |items| == n + 2 && Wellformed(items) && seed != map[] && m != map[]
    requires Run(c, 1.0, seed, items[..n]) == Some(m) && Solve(c, m, items[n], 1.0) == Some(v)
    requires var m' := m[D.Day(items[n].mat) := v]; m' != map[] && Solve(c, m', items[n + 1], 1.0) == Some(w)
    ensures Run(c, 1.0, seed, items) == Some(m[D.Day(items[n].mat) := v][D.Day(items[n + 1].mat) := w])
  {
    hide D.Day, D.AddYears, Solve;
    assert items[..n + 1][..n] == items[..n];
    assert items[..n + 2][..n + 1] == items[..n + 1] && items[..n + 2] == items;
    assert Run(c, 1.0, seed, items[..n + 1]) == Some(m[D.Day(items[n].mat) := v]);
  }

  lemma LeapShape(c: Conventions, n: nat)
    requires Counted(c) && LeapStart(c, n)
    ensures D.Valid(c.spot) && GridShape(c, LeapItems(c, n), n + 1) && Seeded(c, 1.0, FlatSeed(c), LeapItems(c, n))
    ensures SwapCounted(c, LeapItems(c, n), n + 1)
  {
    hide D.Day, D.AddYears, D.AddMonths, First, ExpLn.Valid, ByTheCode;
    LeapDates(c, n);
    SeedIsFlat(c);
    var items := LeapItems(c, n);
    assert D.AddYears(c.spot, 0) == c.spot by { YearZero(c.spot); }
    forall i | 0 <= i < n + 1 ensures items[..n + 1][i].mat == D.AddYears(c.spot, i + 1) && Spot(c) < D.Day(items[i].mat) {
      assert items[..n + 1][i] == items[i];
      D.YearsAreOrdered(c.spot, 0, i + 1);
    }
    forall g | 0 <= g < n + 1 ensures items[g].mat != items[n + 1].mat {
            TenorOffGrid(c, n, g + 1);
    }
  }

  lemma YearZero(t: D.Date)
    requires D.Valid(t)
    ensures D.AddYears(t, 0) == t
  {
  }

  lemma TenorOffGrid(c: Conventions, n: nat, i: nat)
    requires LeapStart(c, n)
    ensures D.Valid(c.spot) && TenorDate(c, n) != D.AddYears(c.spot, i)
  {
    assert (1 + (12 * n - 6)) % 12 == 7;
  }

  lemma OffParBy(c: Conventions, items: seq<Item>, n: nat, seed: map<int, real>, m: map<int, real>, final: map<int, real>, v: real)
    requires Seeded(c, 1.0, seed, items) && n < |items| && items[n].rate == 0.1 && Run(c, 1.0, seed, items) == Some(final)
    requires Run(c, 1.0, seed, items[..n]) == Some(m) && Solve(c, m, items[n], 1.0) == Some(v)
    requires Anchored(final) && D.Day(items[n].mat) in final && final[D.Day(items[n].mat)] == v
    requires Annuity(c.E, m, Interior(Periods(c, items[n]))) != Annuity(c.E, final, Interior(Periods(c, items[n])))
    ensures Npv(c, final, items[n]) != 0.0
  {
    hide D.Day, D.AddYears, Df, ExpLn.Valid, PeriodsFrom, Annuity, Npv, Solve, First, Run, Interior;
    FinalRepricingError(c, 1.0, seed, items, n);
    DfAtPillar(c.E, final, D.Day(items[n].mat));
  }

  // ----- exactly -----

  /** The annual items are solved under the swap day count. */
  ghost predicate SwapCounted(c: Conventions, items: seq<Item>, n: nat) {
    forall i :: 0 <= i < n && i < |items| ==> items[i].dc == c.swapDc
  }

  /** A finished curve, with `items[g]` one of its annual quotes. */
  ghost predicate Finished(c: Conventions, dfSpot: real, m: map<int, real>, items: seq<Item>, n: nat, g: nat) {
    && Seeded(c, dfSpot, m, items) && GridShape(c, items, n) && SwapCounted(c, items, n) && g < n
    && Run(c, dfSpot, m, items).Some? && Anchored(Run(c, dfSpot, m, items).value)
  }

  /** From this spot date, under this swap day count, every annual quote is worth nothing on
      the finished curve, whatever the seed and the quotes. */
  ghost predicate AnnualAlwaysReprices(spot: D.Date, dc: string) {
    forall c: Conventions, dfSpot: real, m: map<int, real>, items: seq<Item>, n: nat, g: nat ::
      c.spot == spot && c.swapDc == dc && ByTheCode(c) && Finished(c, dfSpot, m, items, n, g) ==>
        Npv(c, Run(c, dfSpot, m, items).value, items[g]) == 0.0
  }

  /** Under every day count of the program, annual quotes always reprice exactly from the
      spot dates other than 29 February. */
  lemma AnnualAlwaysRepricesIff(E: ExpLn, spot: D.Date, dc: string)
    requires E.Valid() && D.Valid(spot)
    ensures AnnualAlwaysReprices(spot, dc) <==> !D.LeapDay(spot)
  {
    if D.LeapDay(spot) {
      hide Run, Seeded, GridShape, Npv, ExpLn.Valid, ByTheCode, SwapCounted, CodeConventions;
      var n := NextLeapYear(spot.y);
      var c := CodeConventions(E, spot, dc);
      CodeIsByTheCode(E, spot, dc);
      CodeIsValid(E, spot, dc);
      LeapDaySpotDoesNotReprice(c, n);
      assert Finished(c, 1.0, FlatSeed(c), LeapItems(c, n), n + 1, n);
    } else {
      OtherSpotsReprice(spot, dc);
    }
  }

  lemma CodeIsValid(E: ExpLn, spot: D.Date, dc: string)
    requires E.Valid() && D.Valid(spot)
    ensures var c := CodeConventions(E, spot, dc); c.Valid() && c.spot == spot && c.swapDc == dc
  {
  }

  lemma OtherSpotsReprice(spot: D.Date, dc: string)
    requires D.Valid(spot) && !D.LeapDay(spot)
    ensures AnnualAlwaysReprices(spot, dc)
  {
    hide Run, Npv, ExpLn.Valid, ByTheCode, SwapCounted;
    forall c: Conventions, dfSpot: real, m: map<int, real>, items: seq<Item>, n: nat, g: nat
      | c.spot == spot && c.swapDc == dc && ByTheCode(c) && Finished(c, dfSpot, m, items, n, g)
      ensures Npv(c, Run(c, dfSpot, m, items).value, items[g]) == 0.0
    {
      AnnualReprices(c, dfSpot, m, items, n, g);
    }
  }
}
