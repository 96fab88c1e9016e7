/** From swap quotes to the final curve: which quotes form the annual grid, the rate of
    every whole year, the order of the tenor quotes, and what the curve then promises
    about each quote. */
module BootstrapCurve {
  import opened Options
  import opened Reals
  import opened Pillars
  import opened Bootstrap
  import D = CivilDate

  /** A quoted whole-year swap rate. */
  datatype YearRate = YearRate(year: nat, rate: real)

  function Maturity(spot: D.Date, t: Tenor): (r: D.Date)
    requires D.Valid(spot)
    ensures D.Valid(r)
  {
    match t
    case Years(n) => D.AddYears(spot, n)
    case Months(n) => D.AddMonths(spot, n)
    case Weeks(n) => D.AddDays(spot, 7 * n)
    case DayCount(n) => D.AddDays(spot, n)
  }

  function DcOf(c: Conventions, q: SwapQuote): string {
    match q.dayCount
    case Some(dc) => dc
    case None => c.swapDc
  }

  function ItemOf(c: Conventions, q: SwapQuote): Item
    requires D.Valid(c.spot)
  {
    Item(Maturity(c.spot, q.tenor), q.rate, DcOf(c, q))
  }

  // ----- the annual quotes -----

  /** The whole years a quote feeds into the annual grid: 1Y and 12M alike. */
  function WholeYears(q: SwapQuote): seq<YearRate> {
    match q.tenor
    case Years(n) => [YearRate(n, q.rate)]
    case Months(n) => if n % 12 == 0 then [YearRate(n / 12, q.rate)] else []
    case _ => []
  }

  /** The month, week and day quotes, solved after the grid. */
  function Tenors(q: SwapQuote): seq<SwapQuote> {
    if q.tenor.Years? then [] else [q]
  }

  function AnnualSparse(qs: seq<SwapQuote>): seq<YearRate> {
    if qs == [] then [] else AnnualSparse(qs[..|qs| - 1]) + WholeYears(qs[|qs| - 1])
  }

  function NonYear(qs: seq<SwapQuote>): seq<SwapQuote> {
    if qs == [] then [] else NonYear(qs[..|qs| - 1]) + Tenors(qs[|qs| - 1])
  }

  predicate Precedes(a: YearRate, b: YearRate) {
    a.year < b.year || (a.year == b.year && a.rate <= b.rate)
  }

  function InsertYear(x: YearRate, s: seq<YearRate>): seq<YearRate> {
    if s == [] || Precedes(x, s[0]) then [x] + s else [s[0]] + InsertYear(x, s[1..])
  }

  /** `annual_sparse.sort()`. */
  function SortYears(s: seq<YearRate>): seq<YearRate> {
    if s == [] then [] else InsertYear(s[0], SortYears(s[1..]))
  }

  function Interpolated(y: int, a: YearRate, b: YearRate): real
    requires a.year != b.year
  {
    var t := (y - a.year) as real / (b.year - a.year) as real;
    a.rate * (1.0 - t) + b.rate * t
  }

  predicate YearsSorted(s: seq<YearRate>) {
    forall i, j :: 0 <= i < j < |s| ==> s[i].year <= s[j].year
  }

  /** The rate of year `y` between two sorted neighbours `i` and `i + 1` that hold it. */
  function RateFrom(y: int, s: seq<YearRate>, i: nat): real
    requires YearsSorted(s) && i + 1 < |s| && s[i].year < y < s[|s| - 1].year
    decreases |s| - i
  {
    if y <= s[i + 1].year then Interpolated(y, s[i], s[i + 1]) else RateFrom(y, s, i + 1)
  }

  /** Linear interpolation of the quoted rates at a whole year, flat at both ends. */
  function RateAt(y: int, s: seq<YearRate>): real
    requires YearsSorted(s) && s != []
  {
    if y <= s[0].year then s[0].rate
    else if y >= s[|s| - 1].year then s[|s| - 1].rate
    else RateFrom(y, s, 0)
  }

  method InterpolateRate(y: int, sparse: seq<YearRate>) returns (r: real)
    requires YearsSorted(sparse) && sparse != []
    ensures r == RateAt(y, sparse)
  {
    var last := |sparse| - 1;
    if y <= sparse[0].year { return sparse[0].rate; }
    if y >= sparse[last].year { return sparse[last].rate; }
    var i := 0;
    while i < last
      invariant 0 <= i < last && sparse[i].year < y < sparse[last].year
      invariant RateAt(y, sparse) == RateFrom(y, sparse, i)
    {
      if sparse[i].year <= y <= sparse[i + 1].year {
        return Interpolated(y, sparse[i], sparse[i + 1]);
      }
      i := i + 1;
    }
  }

  predicate YearsDistinct(s: seq<YearRate>) {
    forall i, j :: 0 <= i < j < |s| ==> s[i].year != s[j].year
  }

  /** At a quoted year, quoted once, the interpolated rate is the quoted rate. */
  lemma RateAtQuotedYear(s: seq<YearRate>, k: nat)
    requires YearsSorted(s) && YearsDistinct(s) && k < |s|
    ensures RateAt(s[k].year, s) == s[k].rate
  {
    if 0 < k < |s| - 1 { RateFromQuotedYear(s, k, 0); }
  }

  lemma {:induction false} RateFromQuotedYear(s: seq<YearRate>, k: nat, i: nat)
    requires YearsSorted(s) && YearsDistinct(s) && i < k < |s| - 1
    ensures RateFrom(s[k].year, s, i) == s[k].rate
    decreases k - i
  {
    if i + 1 < k { RateFromQuotedYear(s, k, i + 1); }
  }

  lemma {:induction false} InsertYearKeeps(x: YearRate, s: seq<YearRate>)
    ensures multiset(InsertYear(x, s)) == multiset(s) + multiset{x}
  {
    if s != [] {
      assert s == [s[0]] + s[1..];
      if !Precedes(x, s[0]) { InsertYearKeeps(x, s[1..]); }
    }
  }

  lemma {:induction false} InsertYearSorted(x: YearRate, s: seq<YearRate>)
    requires YearsSorted(s)
    ensures YearsSorted(InsertYear(x, s))
  {
    if s != [] && !Precedes(x, s[0]) {
      InsertYearSorted(x, s[1..]);
      InsertYearKeeps(x, s[1..]);
      var rest := InsertYear(x, s[1..]);
      forall j | 0 <= j < |rest| ensures s[0].year <= rest[j].year {
        assert rest[j] in multiset(rest);
        if rest[j] != x {
          assert rest[j] in s[1..];
          var i :| 0 <= i < |s[1..]| && s[1..][i] == rest[j];
          assert s[i + 1] == rest[j];
        }
      }
    }
  }

  lemma {:induction false} SortYearsSorts(s: seq<YearRate>)
    ensures YearsSorted(SortYears(s)) && multiset(SortYears(s)) == multiset(s)
    ensures |SortYears(s)| == |s|
  {
    if s != [] {
      SortYearsSorts(s[1..]);
      InsertYearSorted(s[0], SortYears(s[1..]));
      InsertYearKeeps(s[0], SortYears(s[1..]));
      assert s == [s[0]] + s[1..];
    }
    assert |multiset(SortYears(s))| == |multiset(s)|;
  }

  lemma {:induction false} SortYearsDistinct(s: seq<YearRate>)
    requires YearsDistinct(s)
    ensures YearsSorted(SortYears(s)) && YearsDistinct(SortYears(s))
  {
    SortYearsSorts(s);
    var t := SortYears(s);
    forall i, j | 0 <= i < j < |t| ensures t[i].year != t[j].year {
      if t[i].year == t[j].year { TwoOfOneYear(s, t, i, j); }
    }
  }

  /** Two entries of one year in a rearrangement are two entries in the original. */
  lemma TwoOfOneYear(s: seq<YearRate>, t: seq<YearRate>, i: nat, j: nat)
    requires multiset(s) == multiset(t) && i < j < |t| && t[i].year == t[j].year
    ensures !YearsDistinct(s)
  {
    var a, b := t[i], t[j];
    assert t == t[..i] + [a] + t[i + 1..j] + [b] + t[j + 1..];
    assert multiset(t) >= multiset([a]) + multiset([b]);
    if a == b {
      assert multiset(s)[a] >= 2;
      TwoOccurrences(s, a);
    } else {
      assert a in multiset(s) && b in multiset(s);
      var x :| 0 <= x < |s| && s[x] == a;
      var y :| 0 <= y < |s| && s[y] == b;
      assert x < y || y < x;
    }
  }

  lemma TwoOccurrences(s: seq<YearRate>, a: YearRate)
    requires multiset(s)[a] >= 2
    ensures exists x, y :: 0 <= x < y < |s| && s[x] == a && s[y] == a
  {
    var x :| 0 <= x < |s| && s[x] == a;
    var rest := s[..x] + s[x + 1..];
    assert s == s[..x] + [a] + s[x + 1..];
    assert multiset(s) == multiset(rest) + multiset([a]);
    assert a in multiset(rest);
    var z :| 0 <= z < |rest| && rest[z] == a;
    if z < x { assert s[z] == a; } else { assert s[z + 1] == a; }
  }

  // ----- the order of solving -----

  function MaxYear(sparse: seq<YearRate>): nat {
    if sparse == [] then 0 else sparse[|sparse| - 1].year
  }

  /** The dense annual grid, 1Y to the longest quoted year. */
  function GridItems(c: Conventions, sparse: seq<YearRate>): (items: seq<Item>)
    requires D.Valid(c.spot) && YearsSorted(sparse)
    ensures |items| == MaxYear(sparse) && Wellformed(items)
  {
    seq(MaxYear(sparse), i requires 0 <= i < MaxYear(sparse) =>
      Item(D.AddYears(c.spot, i + 1), RateAt(i + 1, sparse), c.swapDc))
  }

  function ItemsOf(c: Conventions, qs: seq<SwapQuote>): (items: seq<Item>)
    requires D.Valid(c.spot)
    ensures |items| == |qs| && Wellformed(items)
  {
    seq(|qs|, i requires 0 <= i < |qs| => ItemOf(c, qs[i]))
  }

  function InsertItem(x: Item, s: seq<Item>): (r: seq<Item>)
    requires D.Valid(x.mat) && Wellformed(s)
    ensures Wellformed(r)
  {
    if s == [] || D.Day(x.mat) <= D.Day(s[0].mat) then [x] + s
    else
      var rest := InsertItem(x, s[1..]);
      [s[0]] + rest
  }

  /** Stable sort by maturity. */
  function SortItems(s: seq<Item>): (r: seq<Item>)
    requires Wellformed(s)
    ensures Wellformed(r)
  {
    if s == [] then [] else InsertItem(s[0], SortItems(s[1..]))
  }

  function AllItems(c: Conventions, qs: seq<SwapQuote>): (items: seq<Item>)
    requires D.Valid(c.spot)
    ensures Wellformed(items)
  {
    SortYearsSorts(AnnualSparse(qs));
    GridItems(c, SortYears(AnnualSparse(qs))) + SortItems(ItemsOf(c, NonYear(qs)))
  }

  method Collect(qs: seq<SwapQuote>) returns (annual: seq<YearRate>, rest: seq<SwapQuote>)
    ensures annual == AnnualSparse(qs) && rest == NonYear(qs)
  {
    annual, rest := [], [];
    var i := 0;
    while i < |qs|
      invariant 0 <= i <= |qs|
      invariant annual == AnnualSparse(qs[..i]) && rest == NonYear(qs[..i])
    {
      assert qs[..i + 1][..i] == qs[..i];
      match qs[i].tenor {
        case Years(n) => annual := annual + [YearRate(n, qs[i].rate)];
        case Months(n) =>
          if n % 12 == 0 { annual := annual + [YearRate(n / 12, qs[i].rate)]; }
          rest := rest + [qs[i]];
        case _ => rest := rest + [qs[i]];
      }
      i := i + 1;
    }
    assert qs[..|qs|] == qs;
  }

  /** The bootstrap: the grid in year order, then the tenor quotes in maturity order,
      each appended to the pillar list it was solved on. */
  method Build(c: Conventions, dfSpot: real, seed: seq<Pillar>, qs: seq<SwapQuote>) returns (curve: Option<seq<Pillar>>)
    requires D.Valid(c.spot) && AsMap(seed) != map[]
    ensures curve.Some? <==> Run(c, dfSpot, AsMap(seed), AllItems(c, qs)).Some?
    ensures curve.Some? ==> Increasing(curve.value) && Some(AsMap(curve.value)) == Run(c, dfSpot, AsMap(seed), AllItems(c, qs))
  {
    hide D.AddYears, D.Day, Solve, Run, AnnualSparse, NonYear, SortYears, RateAt, SortItems;
    var annual, nonYear := Collect(qs);
    SortYearsSorts(annual);
    var sparse := SortYears(annual);
    ghost var items := AllItems(c, qs);
    ghost var m := AsMap(seed);
    RunOfNothing(c, dfSpot, m, items);
    var dfPillars := seed;
    var y := 1;
    while y <= MaxYear(sparse)
      invariant 1 <= y <= MaxYear(sparse) + 1
      invariant AsMap(dfPillars) != map[] && Run(c, dfSpot, m, items[..y - 1]) == Some(AsMap(dfPillars))
    {
      var rate := InterpolateRate(y, sparse);
      var item := Item(D.AddYears(c.spot, y), rate, c.swapDc);
      assert items[y - 1] == item;
      RunOneMore(c, dfSpot, m, items, y - 1, AsMap(dfPillars));
      var df := BootstrapOis(c, item, dfPillars, dfSpot);
      if df.None? { return None; }
      dfPillars := dfPillars + [Pillar(D.Day(item.mat), df.value)];
      AsMapAppend(dfPillars);
      y := y + 1;
    }
    var rest := SortItems(ItemsOf(c, nonYear));
    var n := MaxYear(sparse);
    var i := 0;
    while i < |rest|
      invariant 0 <= i <= |rest|
      invariant AsMap(dfPillars) != map[] && Run(c, dfSpot, m, items[..n + i]) == Some(AsMap(dfPillars))
    {
      assert items[n + i] == rest[i];
      RunOneMore(c, dfSpot, m, items, n + i, AsMap(dfPillars));
      var df := BootstrapOis(c, rest[i], dfPillars, dfSpot);
      if df.None? { return None; }
      dfPillars := dfPillars + [Pillar(D.Day(rest[i].mat), df.value)];
      AsMapAppend(dfPillars);
      i := i + 1;
    }
    assert items[..n + i] == items;
    var sortedPil := SortedDedup(dfPillars);
    curve := Some(sortedPil);
  }

  lemma RunOfNothing(c: Conventions, dfSpot: real, m: map<int, real>, items: seq<Item>)
    requires D.Valid(c.spot) && Wellformed(items) && m != map[]
    ensures Run(c, dfSpot, m, items[..0]) == Some(m)
  {
  }

  lemma RunOneMore(c: Conventions, dfSpot: real, m: map<int, real>, items: seq<Item>, k: nat, pils: map<int, real>)
    requires D.Valid(c.spot) && Wellformed(items) && m != map[] && k < |items|
    requires pils != map[] && Run(c, dfSpot, m, items[..k]) == Some(pils)
    ensures Solve(c, pils, items[k], dfSpot).None? ==> Run(c, dfSpot, m, items).None?
    ensures Solve(c, pils, items[k], dfSpot).Some? ==>
      Run(c, dfSpot, m, items[..k + 1]) == Some(pils[D.Day(items[k].mat) := Solve(c, pils, items[k], dfSpot).value])
  {
    hide D.AddYears, D.Day, Solve;
    assert items[..k + 1][..k] == items[..k];
    if Solve(c, pils, items[k], dfSpot).None? {
      RunFailsOnceFailed(c, dfSpot, m, items, k + 1);
    }
  }

  lemma AsMapAppend(ps: seq<Pillar>)
    requires ps != []
    ensures AsMap(ps) == AsMap(ps[..|ps| - 1])[ps[|ps| - 1].day := ps[|ps| - 1].df]
  {
  }

  lemma {:induction false} RunFailsOnceFailed(c: Conventions, dfSpot: real, m: map<int, real>, items: seq<Item>, k: nat)
    requires D.Valid(c.spot) && Wellformed(items) && m != map[] && k <= |items|
    requires Run(c, dfSpot, m, items[..k]).None?
    ensures Run(c, dfSpot, m, items).None?
    decreases |items|
  {
    if k == |items| {
      assert items[..k] == items;
    } else {
      var init := items[..|items| - 1];
      assert init[..k] == items[..k];
      RunFailsOnceFailed(c, dfSpot, m, init, k);
    }
  }

  // ----- what the curve promises about each quote -----

  ghost predicate PositiveTenor(t: Tenor) {
    t.n >= 1
  }

  /** A quote set the promise covers: spot not on 29 February, every tenor positive,
      every whole year quoted once, whole years quoted in months under the swap day
      count, no week or day tenor on a grid date, and tenor maturities all different. */
  ghost predicate Consistent(c: Conventions, qs: seq<SwapQuote>) {
    && D.Valid(c.spot) && !D.LeapDay(c.spot)
    && (forall q :: q in qs ==> PositiveTenor(q.tenor))
    && YearsDistinct(AnnualSparse(qs))
    && (forall q :: q in qs && q.tenor.Months? && q.tenor.n % 12 == 0 ==> DcOf(c, q) == c.swapDc)
    && (forall q, y :: q in qs && (q.tenor.Weeks? || q.tenor.DayCount?) ==> ItemOf(c, q).mat != D.AddYears(c.spot, y))
    && DistinctMaturities(ItemsOf(c, NonYear(qs)))
  }

  ghost predicate DistinctMaturities(items: seq<Item>)
    requires Wellformed(items)
  {
    forall i, j :: 0 <= i < j < |items| ==> D.Day(items[i].mat) != D.Day(items[j].mat)
  }

  ghost predicate AllAfter(items: seq<Item>, d: int)
    requires Wellformed(items)
  {
    forall i :: 0 <= i < |items| ==> d < D.Day(items[i].mat)
  }

  ghost predicate Distinct(x: Item, s: seq<Item>)
    requires D.Valid(x.mat) && Wellformed(s)
  {
    forall i :: 0 <= i < |s| ==> D.Day(x.mat) != D.Day(s[i].mat)
  }

  lemma {:induction false} InsertItemSorts(x: Item, s: seq<Item>)
    requires D.Valid(x.mat) && Wellformed(s) && MaturesInOrderFrom(s, 0) && Distinct(x, s)
    ensures MaturesInOrderFrom(InsertItem(x, s), 0)
    ensures forall y :: y in InsertItem(x, s) <==> y == x || y in s
  {
    hide D.Day;
    if s == [] || D.Day(x.mat) <= D.Day(s[0].mat) {
    } else {
      assert s == [s[0]] + s[1..];
      assert forall i :: 0 <= i < |s[1..]| ==> s[1..][i] == s[i + 1];
      InsertItemSorts(x, s[1..]);
      var rest := InsertItem(x, s[1..]);
      forall j | 0 <= j < |rest| ensures D.Day(s[0].mat) < D.Day(rest[j].mat) {
        assert rest[j] in rest;
        if rest[j] != x {
          var i :| 0 <= i < |s[1..]| && s[1..][i] == rest[j];
          assert s[i + 1] == rest[j];
        }
      }
    }
  }

  lemma {:induction false} SortItemsSorts(s: seq<Item>)
    requires Wellformed(s) && DistinctMaturities(s)
    ensures MaturesInOrderFrom(SortItems(s), 0)
    ensures forall y :: y in SortItems(s) <==> y in s
  {
    hide D.Day;
    if s != [] {
      assert s == [s[0]] + s[1..];
      assert forall i :: 0 <= i < |s[1..]| ==> s[1..][i] == s[i + 1];
      SortItemsSorts(s[1..]);
      var rest := SortItems(s[1..]);
      forall i | 0 <= i < |rest| ensures D.Day(s[0].mat) != D.Day(rest[i].mat) {
        assert rest[i] in rest;
        var j :| 0 <= j < |s[1..]| && s[1..][j] == rest[i];
        assert s[j + 1] == rest[i];
      }
      InsertItemSorts(s[0], rest);
    }
  }

  lemma {:induction false} QuotesCollected(qs: seq<SwapQuote>, q: SwapQuote)
    ensures q in NonYear(qs) <==> q in qs && !q.tenor.Years?
    ensures q in qs && q.tenor.Years? ==> YearRate(q.tenor.n, q.rate) in AnnualSparse(qs)
    ensures q in qs && q.tenor.Months? && q.tenor.n % 12 == 0 ==> YearRate(q.tenor.n / 12, q.rate) in AnnualSparse(qs)
  {
    if qs != [] {
      QuotesCollected(qs[..|qs| - 1], q);
      assert qs == qs[..|qs| - 1] + [qs[|qs| - 1]];
    }
  }

  /** A whole year quoted once is a grid item at the quoted rate. */
  lemma QuotedYearOnGrid(qs: seq<SwapQuote>, year: nat, rate: real)
    requires YearsDistinct(AnnualSparse(qs)) && YearRate(year, rate) in AnnualSparse(qs)
    ensures var sparse := SortYears(AnnualSparse(qs));
            YearsSorted(sparse) && year <= MaxYear(sparse) && RateAt(year, sparse) == rate
  {
    hide SortYears, AnnualSparse, RateAt;
    var annual := AnnualSparse(qs);
    SortYearsSorts(annual);
    SortYearsDistinct(annual);
    var sparse := SortYears(annual);
    assert YearRate(year, rate) in multiset(sparse);
    var k :| 0 <= k < |sparse| && sparse[k] == YearRate(year, rate);
    RateAtQuotedYear(sparse, k);
  }

  /** A month tenor that lands on a grid date is a whole number of years. */
  lemma MonthsOnGridDate(t: D.Date, n: nat, y: nat)
    requires D.Valid(t) && D.AddMonths(t, n) == D.AddYears(t, y)
    ensures n % 12 == 0 && n / 12 == y
  {
  }

  /** A tenor item matures after spot, and is the grid's own item if it lands on the grid. */
  lemma TenorItem(c: Conventions, qs: seq<SwapQuote>, item: Item)
    requires Consistent(c, qs) && YearsSorted(SortYears(AnnualSparse(qs)))
    requires item in SortItems(ItemsOf(c, NonYear(qs)))
    ensures D.Valid(item.mat) && Spot(c) < D.Day(item.mat)
    ensures var grid := GridItems(c, SortYears(AnnualSparse(qs)));
            forall g :: 0 <= g < |grid| && item.mat == grid[g].mat ==> item == grid[g]
  {
    hide D.Day, D.AddYears, D.AddMonths, D.AddDays, SortYears, AnnualSparse, NonYear;
    var q := TenorOf(c, qs, item);
    MaturityAfterSpot(c, q);
    var grid := GridItems(c, SortYears(AnnualSparse(qs)));
    forall g | 0 <= g < |grid| && item.mat == grid[g].mat ensures item == grid[g] {
      TenorOnGrid(c, qs, q, g);
    }
  }

  lemma ConsistentItems(c: Conventions, qs: seq<SwapQuote>)
    requires Consistent(c, qs)
    ensures YearsSorted(SortYears(AnnualSparse(qs)))
    ensures GridThenTenors(c, AllItems(c, qs), MaxYear(SortYears(AnnualSparse(qs))))
    ensures AllAfter(AllItems(c, qs), Spot(c))
  {
    SortYearsSorts(AnnualSparse(qs));
    SortItemsSorts(ItemsOf(c, NonYear(qs)));
    var sparse := SortYears(AnnualSparse(qs));
    var grid, tenors := GridItems(c, sparse), SortItems(ItemsOf(c, NonYear(qs)));
    forall x | x in tenors ensures Spot(c) < D.Day(x.mat) && forall g :: 0 <= g < |grid| && x.mat == grid[g].mat ==> x == grid[g] {
      TenorItem(c, qs, x);
    }
    GridItemsAreAGrid(c, sparse);
    GridWithTenors(c, grid, tenors);
  }

  lemma GridItemsAreAGrid(c: Conventions, sparse: seq<YearRate>)
    requires D.Valid(c.spot) && YearsSorted(sparse)
    ensures IsGrid(c, GridItems(c, sparse)) && AllAfter(GridItems(c, sparse), Spot(c))
  {
    hide D.Day, D.AddYears;
    var grid := GridItems(c, sparse);
    forall i | 0 <= i < |grid| ensures Spot(c) < D.Day(grid[i].mat) {
      GridAfterSpot(c, i + 1);
    }
  }

  lemma GridWithTenors(c: Conventions, grid: seq<Item>, tenors: seq<Item>)
    requires D.Valid(c.spot) && !D.LeapDay(c.spot) && Wellformed(grid) && Wellformed(tenors)
    requires IsGrid(c, grid) && AllAfter(grid, Spot(c)) && MaturesInOrderFrom(tenors, 0)
    requires forall x :: x in tenors ==> Spot(c) < D.Day(x.mat)
    requires forall x, g :: x in tenors && 0 <= g < |grid| && x.mat == grid[g].mat ==> x == grid[g]
    ensures GridThenTenors(c, grid + tenors, |grid|) && AllAfter(grid + tenors, Spot(c))
  {
  }

  lemma GridAfterSpot(c: Conventions, y: nat)
    requires D.Valid(c.spot) && y >= 1
    ensures Spot(c) < D.Day(D.AddYears(c.spot, y))
  {
    D.YearsAreOrdered(c.spot, 0, y);
    assert D.AddYears(c.spot, 0) == c.spot;
  }

  lemma MaturityAfterSpot(c: Conventions, q: SwapQuote)
    requires D.Valid(c.spot) && PositiveTenor(q.tenor)
    ensures Spot(c) < D.Day(ItemOf(c, q).mat)
  {
    hide D.Day, D.AddDays;
    match q.tenor
    case Years(n) => GridAfterSpot(c, n);
    case Months(n) =>
      D.MonthsAreOrdered(c.spot, 0, n);
      assert D.AddMonths(c.spot, 0) == c.spot;
    case Weeks(n) => D.AddDaysMovesDay(c.spot, 7 * n);
    case DayCount(n) => D.AddDaysMovesDay(c.spot, n);
  }

  lemma TenorOf(c: Conventions, qs: seq<SwapQuote>, item: Item) returns (q: SwapQuote)
    requires Consistent(c, qs) && item in SortItems(ItemsOf(c, NonYear(qs)))
    ensures q in qs && !q.tenor.Years? && ItemOf(c, q) == item && PositiveTenor(q.tenor)
  {
    SortItemsSorts(ItemsOf(c, NonYear(qs)));
    var k :| 0 <= k < |NonYear(qs)| && ItemsOf(c, NonYear(qs))[k] == item;
    q := NonYear(qs)[k];
    QuotesCollected(qs, q);
  }

  lemma TenorOnGrid(c: Conventions, qs: seq<SwapQuote>, q: SwapQuote, g: nat)
    requires Consistent(c, qs) && q in qs && !q.tenor.Years?
    requires YearsSorted(SortYears(AnnualSparse(qs))) && g < MaxYear(SortYears(AnnualSparse(qs)))
    requires ItemOf(c, q).mat == D.AddYears(c.spot, g + 1)
    ensures ItemOf(c, q) == GridItems(c, SortYears(AnnualSparse(qs)))[g]
  {
    hide D.AddYears, D.AddMonths, D.AddDays, SortYears, AnnualSparse, NonYear, RateAt;
    MonthsOnGridDate(c.spot, q.tenor.n, g + 1);
    QuotesCollected(qs, q);
    QuotedYearOnGrid(qs, g + 1, q.rate);
  }

  /** The promise: on the final curve every annual quote is worth nothing at its own
      rate, and so is every tenor quote whose last coupon is not beyond the grid. */
  lemma EveryQuoteReprices(c: Conventions, dfSpot: real, m: map<int, real>, qs: seq<SwapQuote>, q: SwapQuote)
    requires Consistent(c, qs) && Seeded(c, dfSpot, m, []) && q in qs
    requires Run(c, dfSpot, m, AllItems(c, qs)).Some?
    ensures var final := Run(c, dfSpot, m, AllItems(c, qs)).value;
            Anchored(final)
            && (q.tenor.Years? ==> Npv(c, final, ItemOf(c, q).(dc := c.swapDc)) == 0.0)
    ensures var final := Run(c, dfSpot, m, AllItems(c, qs)).value;
            var n := MaxYear(SortYears(AnnualSparse(qs)));
            Anchored(final)
            && (!q.tenor.Years? && BackDay(ItemOf(c, q).mat, 1) <= D.Day(D.AddYears(c.spot, n))
                ==> Npv(c, final, ItemOf(c, q)) == 0.0)
  {
    hide D.Day, D.AddYears, D.AddMonths, D.AddDays, Run, Npv, ExpLn.Valid, SortYears, AnnualSparse, NonYear, SortItems, RateAt;
    ConsistentItems(c, qs);
    var items, sparse := AllItems(c, qs), SortYears(AnnualSparse(qs));
    var n := MaxYear(sparse);
    RunPrefix(c, dfSpot, m, items, |items|);
    assert items[..|items|] == items;
    QuotesCollected(qs, q);
    if q.tenor.Years? {
      QuotedYearOnGrid(qs, q.tenor.n, q.rate);
      assert items[q.tenor.n - 1] == ItemOf(c, q).(dc := c.swapDc);
      AnnualReprices(c, dfSpot, m, items, n, q.tenor.n - 1);
    } else if BackDay(ItemOf(c, q).mat, 1) <= D.Day(D.AddYears(c.spot, n)) {
      var k := TenorPosition(c, qs, q);
      LastGridDate(c, qs);
      TenorWithinGridReprices(c, dfSpot, m, items, n, k);
    }
  }

  /** Where a tenor quote is solved. */
  lemma TenorPosition(c: Conventions, qs: seq<SwapQuote>, q: SwapQuote) returns (k: nat)
    requires Consistent(c, qs) && q in qs && !q.tenor.Years?
    ensures MaxYear(SortYears(AnnualSparse(qs))) <= k < |AllItems(c, qs)| && AllItems(c, qs)[k] == ItemOf(c, q)
  {
    hide D.Day, D.AddYears, D.AddMonths, D.AddDays, SortYears, AnnualSparse, SortItems, NonYear;
    QuotesCollected(qs, q);
    SortYearsSorts(AnnualSparse(qs));
    var tenors := ItemsOf(c, NonYear(qs));
    SortItemsSorts(tenors);
    var i :| 0 <= i < |NonYear(qs)| && NonYear(qs)[i] == q;
    assert tenors[i] == ItemOf(c, q);
    assert ItemOf(c, q) in SortItems(tenors);
    var j :| 0 <= j < |SortItems(tenors)| && SortItems(tenors)[j] == ItemOf(c, q);
    k := MaxYear(SortYears(AnnualSparse(qs))) + j;
  }

  lemma LastGridDate(c: Conventions, qs: seq<SwapQuote>)
    requires Consistent(c, qs)
    ensures var n := MaxYear(SortYears(AnnualSparse(qs)));
            if n == 0 then D.AddYears(c.spot, n) == c.spot
            else n <= |AllItems(c, qs)| && AllItems(c, qs)[n - 1].mat == D.AddYears(c.spot, n)
  {
    hide D.Day, D.AddYears, SortYears, AnnualSparse, SortItems, NonYear, RateAt;
    SortYearsSorts(AnnualSparse(qs));
    var n := MaxYear(SortYears(AnnualSparse(qs)));
    if n == 0 {
      NoYears(c.spot);
    } else {
      assert AllItems(c, qs)[n - 1] == GridItems(c, SortYears(AnnualSparse(qs)))[n - 1];
    }
  }

  lemma NoYears(t: D.Date)
    requires D.Valid(t)
    ensures D.AddYears(t, 0) == t
  {
  }

  // ----- the rates of the years between -----

  lemma LineThrough(y: int, a: YearRate, b: YearRate)
    requires a.year < b.year
    ensures (Interpolated(y, a, b) - a.rate) * (b.year - a.year) as real == (b.rate - a.rate) * (y - a.year) as real
  {
    var d, x := (b.year - a.year) as real, (y - a.year) as real;
    var t := x / d;
    assert t * d == x;
    Weigh(a.rate, b.rate, t, d);
  }

  lemma Weigh(p: real, q: real, t: real, d: real)
    ensures (p * (1.0 - t) + q * t - p) * d == (q - p) * (t * d)
  {
    assert p * (1.0 - t) + q * t - p == (q - p) * t;
  }

  lemma {:induction false} RateFromBetween(s: seq<YearRate>, k: nat, i: nat, y: int)
    requires YearsSorted(s) && YearsDistinct(s) && i <= k && k + 1 < |s| && s[k].year < y <= s[k + 1].year
    requires y < s[|s| - 1].year
    ensures s[i].year < y && RateFrom(y, s, i) == Interpolated(y, s[k], s[k + 1])
    decreases k - i
  {
    if i < k { RateFromBetween(s, k, i + 1, y); }
  }

  /** Between two neighbouring quotes the rate lies on the line through them. */
  lemma RateBetweenQuotes(s: seq<YearRate>, k: nat, y: int)
    requires YearsSorted(s) && YearsDistinct(s) && k + 1 < |s| && s[k].year <= y <= s[k + 1].year
    ensures (RateAt(y, s) - s[k].rate) * (s[k + 1].year - s[k].year) as real == (s[k + 1].rate - s[k].rate) * (y - s[k].year) as real
  {
    var a, b := s[k], s[k + 1];
    if y == a.year {
      RateAtQuotedYear(s, k);
    } else if y == b.year {
      RateAtQuotedYear(s, k + 1);
    } else {
      RateFromBetween(s, k, 0, y);
      LineThrough(y, a, b);
    }
  }

  /** Before the first quote and after the last the rate is theirs. */
  lemma RateOutsideQuotes(s: seq<YearRate>, y: int)
    requires YearsSorted(s) && s != []
    ensures y <= s[0].year ==> RateAt(y, s) == s[0].rate
    ensures y >= s[|s| - 1].year && (YearsDistinct(s) || s[0].year < y) ==> RateAt(y, s) == s[|s| - 1].rate
  {
  }

  /** No whole-year quote lies strictly between two years. */
  ghost predicate Neighbours(qs: seq<SwapQuote>, a: YearRate, b: YearRate) {
    && a in AnnualSparse(qs) && b in AnnualSparse(qs) && a.year < b.year
    && forall q :: q in AnnualSparse(qs) ==> q.year <= a.year || b.year <= q.year
  }

  /** The grid solves every year between two neighbouring quotes at the rate on the line
      through them, at the anniversary of spot and under the swap day count. */
  lemma GridBetweenQuotes(c: Conventions, qs: seq<SwapQuote>, a: YearRate, b: YearRate, y: nat)
    requires D.Valid(c.spot) && YearsDistinct(AnnualSparse(qs)) && Neighbours(qs, a, b) && a.year <= y <= b.year && y >= 1
    ensures y <= |AllItems(c, qs)|
    ensures var item := AllItems(c, qs)[y - 1];
            item.mat == D.AddYears(c.spot, y) && item.dc == c.swapDc
            && (item.rate - a.rate) * (b.year - a.year) as real == (b.rate - a.rate) * (y - a.year) as real
  {
    hide D.Day, D.AddYears, AnnualSparse, RateAt, SortYears, SortItems, NonYear;
    var sparse := SortYears(AnnualSparse(qs));
    SortYearsSorts(AnnualSparse(qs));
    SortYearsDistinct(AnnualSparse(qs));
    var k := NextToEachOther(qs, a, b);
    RateBetweenQuotes(sparse, k, y);
    assert AllItems(c, qs)[y - 1] == GridItems(c, sparse)[y - 1];
  }

  /** Before the first quoted year the grid solves at the first quoted rate. */
  lemma GridBeforeQuotes(c: Conventions, qs: seq<SwapQuote>, a: YearRate, y: nat)
    requires D.Valid(c.spot) && YearsDistinct(AnnualSparse(qs)) && a in AnnualSparse(qs) && 1 <= y <= a.year
    requires forall q :: q in AnnualSparse(qs) ==> a.year <= q.year
    ensures y <= |AllItems(c, qs)| && AllItems(c, qs)[y - 1] == Item(D.AddYears(c.spot, y), a.rate, c.swapDc)
  {
    hide D.Day, D.AddYears, AnnualSparse, RateAt, SortYears, SortItems, NonYear;
    var sparse := SortYears(AnnualSparse(qs));
    SortYearsSorts(AnnualSparse(qs));
    SortYearsDistinct(AnnualSparse(qs));
    var k := PlaceOf(qs, a);
    var first := sparse[0];
    assert first in multiset(sparse);
    assert first in AnnualSparse(qs);
    assert k == 0;
    RateOutsideQuotes(sparse, y);
    assert AllItems(c, qs)[y - 1] == GridItems(c, sparse)[y - 1];
  }

  lemma PlaceOf(qs: seq<SwapQuote>, a: YearRate) returns (k: nat)
    requires a in AnnualSparse(qs)
    ensures k < |SortYears(AnnualSparse(qs))| && SortYears(AnnualSparse(qs))[k] == a
  {
    hide AnnualSparse, SortYears;
    SortYearsSorts(AnnualSparse(qs));
    var sparse := SortYears(AnnualSparse(qs));
    assert a in multiset(sparse);
    k :| 0 <= k < |sparse| && sparse[k] == a;
  }

  lemma NextToEachOther(qs: seq<SwapQuote>, a: YearRate, b: YearRate) returns (k: nat)
    requires YearsDistinct(AnnualSparse(qs)) && Neighbours(qs, a, b)
    ensures var s := SortYears(AnnualSparse(qs)); k + 1 < |s| && s[k] == a && s[k + 1] == b
  {
    hide AnnualSparse, SortYears;
    k := PlaceOf(qs, a);
    var l := PlaceOf(qs, b);
    SortYearsSorts(AnnualSparse(qs));
    SortYearsDistinct(AnnualSparse(qs));
    var s := SortYears(AnnualSparse(qs));
    assert k < l;
    var x := s[k + 1];
    assert x in multiset(s);
    assert x in AnnualSparse(qs);
    assert s[k].year < x.year;
    if k + 1 < l { assert false; }
  }

  // ----- the maturity of a quote -----

  /** Weeks are seven days each, months twelve to the year, and the day of the month is kept
      or, where there is none, the last. */
  lemma MaturityIs(spot: D.Date, n: nat)
    requires D.Valid(spot)
    ensures D.Day(Maturity(spot, Weeks(n))) == D.Day(spot) + 7 * n && D.Day(Maturity(spot, DayCount(n))) == D.Day(spot) + n
    ensures var m := Maturity(spot, Months(n));
            12 * m.y + m.m == 12 * spot.y + spot.m + n && (m.d == spot.d || (m.d < spot.d && m.d == D.DaysIn(m.y, m.m)))
    ensures Maturity(spot, Years(n)) == Maturity(spot, Months(12 * n))
  {
    D.AddDaysMovesDay(spot, 7 * n);
    D.AddDaysMovesDay(spot, n);
    hide D.Day;
    MonthsRoll(spot.m - 1 + n);
    var k := spot.m - 1 + 12 * n;
    MonthsRoll(k);
    TwelveAtATime(spot.m - 1, n);
  }

  lemma MonthsRoll(k: nat)
    ensures 12 * (k / 12) + k % 12 == k
  {
  }

  lemma TwelveAtATime(m: int, n: nat)
    requires 0 <= m < 12
    ensures (m + 12 * n) / 12 == n && (m + 12 * n) % 12 == m
  {
  }
}
