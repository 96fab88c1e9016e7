/** What the bootstrap starts from: the deposits, and the spot discount factor that is
    computed once and kept as a pillar. */
module BootstrapSeed {
  import opened Reals
  import opened Pillars

  /** A deposit: the day it matures, its rate, and its accrual from the valuation date. */
  datatype Deposit = Deposit(day: int, rate: real, tau: real)

  /** The discount factor of a deposit; a period without length discounts nothing. */
  function DepositDf(d: Deposit): real {
    if d.tau <= 0.0 then 1.0
    else
      var den := 1.0 + d.rate * d.tau;
      if den == 0.0 then 0.0 else 1.0 / den
  }

  /** A unit deposited grows by its rate over the accrual. */
  lemma DepositGrows(d: Deposit)
    requires d.tau > 0.0 && 1.0 + d.rate * d.tau != 0.0
    ensures DepositDf(d) * (1.0 + d.rate * d.tau) == 1.0
  {
    Reciprocal(1.0 + d.rate * d.tau);
  }

  lemma Reciprocal(x: real)
    requires x != 0.0
    ensures (1.0 / x) * x == 1.0
  {
  }

  /** `df_spot` from the overnight deposit: its zero rate carried to the spot date. */
  function FrozenSpot(E: ExpLn, valDay: int, onDay: int, dfOn: real, spot: int): real {
    var tOn := Days(AtLeastOne(onDay - valDay)) / 365.25;
    var tSpot := Days(spot - valDay) / 365.25;
    var r := if dfOn > 0.0 then -E.ln(dfOn) / tOn else 0.0;
    if tSpot > 0.0 then E.exp(-r * tSpot) else 1.0
  }

  /** The frozen spot factor: from the first deposit, or from the valuation date alone. */
  ghost function SpotFactor(E: ExpLn, valDay: int, deposits: seq<Deposit>, spot: int): real {
    if deposits == [] then Df(E, ValuationOnly(valDay), spot)
    else FrozenSpot(E, valDay, deposits[0].day, DepositDf(deposits[0]), spot)
  }

  function ValuationOnly(valDay: int): (m: map<int, real>)
    ensures valDay in m
  {
    map[valDay := 1.0]
  }

  /** The pillars of the deposits: the first as it is, the others when positive. */
  function DepositPillars(deposits: seq<Deposit>): seq<Pillar> {
    if deposits == [] then []
    else
      var n := |deposits| - 1;
      var d := deposits[n];
      DepositPillars(deposits[..n]) + (if n == 0 || DepositDf(d) > 0.0 then [Pillar(d.day, DepositDf(d))] else [])
  }

  ghost function SeedPillars(E: ExpLn, valDay: int, deposits: seq<Deposit>, spot: int): seq<Pillar> {
    [Pillar(valDay, 1.0)] + DepositPillars(deposits) + [Pillar(spot, SpotFactor(E, valDay, deposits, spot))]
  }

  /** The pillar list before the swaps, deposits given in the order they mature. */
  method Seed(E: ExpLn, valDay: int, deposits: seq<Deposit>, spot: int) returns (pillars: seq<Pillar>)
    ensures pillars == SeedPillars(E, valDay, deposits, spot)
  {
    var pils: seq<Pillar> := [];
    var n := 0;
    while n < |deposits|
      invariant 0 <= n <= |deposits| && pils == DepositPillars(deposits[..n])
    {
      assert deposits[..n + 1][..n] == deposits[..n];
      var df := DepositDf(deposits[n]);
      if n == 0 || df > 0.0 { pils := pils + [Pillar(deposits[n].day, df)]; }
      n := n + 1;
    }
    assert deposits[..n] == deposits;
    var dfSpot;
    if deposits == [] {
      var only := [Pillar(valDay, 1.0)];
      assert only[..0] == [] && AsMap(only) == ValuationOnly(valDay);
      var sorted := SortedDedup(only);
      assert sorted != [] by { assert AsMap([]) == map[]; }
      var r := InterpDf(E, spot, sorted);
      dfSpot := r.value;
    } else {
      dfSpot := FrozenSpot(E, valDay, deposits[0].day, DepositDf(deposits[0]), spot);
    }
    pillars := [Pillar(valDay, 1.0)] + pils + [Pillar(spot, dfSpot)];
  }

  lemma FrozenSpotIsPositive(E: ExpLn, valDay: int, deposits: seq<Deposit>, spot: int)
    requires E.Valid() && valDay <= spot
    ensures SpotFactor(E, valDay, deposits, spot) > 0.0
    ensures spot == valDay || deposits == [] ==> SpotFactor(E, valDay, deposits, spot) == 1.0
  {
    if deposits == [] { FlatFromValuation(E, valDay, spot); }
  }

  lemma FlatFromValuation(E: ExpLn, valDay: int, spot: int)
    requires E.Valid()
    ensures Df(E, ValuationOnly(valDay), spot) == 1.0
  {
    var m := ValuationOnly(valDay);
    assert First(m) == valDay && Last(m) == valDay;
    LnOfOne(E);
  }

  /** The last pillar of a day counts; every entry of the map is a pillar of the list. */
  lemma {:induction false} AsMapEntries(s: seq<Pillar>)
    ensures forall i :: 0 <= i < |s| ==> s[i].day in AsMap(s)
    ensures forall k :: k in AsMap(s) ==> Pillar(k, AsMap(s)[k]) in s
  {
    if s != [] {
      var init := s[..|s| - 1];
      AsMapEntries(init);
      assert s == init + [s[|s| - 1]];
      forall i | 0 <= i < |s| ensures s[i].day in AsMap(s) {
        if i < |init| { assert init[i] == s[i]; }
      }
    }
  }

  lemma {:induction false} DepositPillarsHold(deposits: seq<Deposit>)
    requires deposits != [] ==> DepositDf(deposits[0]) > 0.0
    ensures forall p :: p in DepositPillars(deposits) ==> p.df > 0.0 && exists i :: 0 <= i < |deposits| && deposits[i].day == p.day
  {
    if deposits != [] {
      var n := |deposits| - 1;
      DepositPillarsHold(deposits[..n]);
      forall p | p in DepositPillars(deposits) ensures p.df > 0.0 && exists i :: 0 <= i < |deposits| && deposits[i].day == p.day {
        if p in DepositPillars(deposits[..n]) {
          var i :| 0 <= i < n && deposits[..n][i].day == p.day;
          assert deposits[i].day == p.day;
        } else {
          assert deposits[n].day == p.day;
        }
      }
    }
  }

  /** Whatever the deposits, the seed starts at one on the valuation date, is positive, and
      holds the frozen factor on the spot date. */
  lemma SeedIsAnchored(E: ExpLn, valDay: int, deposits: seq<Deposit>, spot: int)
    requires E.Valid() && valDay <= spot && forall i :: 0 <= i < |deposits| ==> valDay < deposits[i].day
    requires deposits != [] ==> DepositDf(deposits[0]) > 0.0
    ensures var m := AsMap(SeedPillars(E, valDay, deposits, spot));
            Anchored(m) && First(m) == valDay && spot in m && m[spot] == SpotFactor(E, valDay, deposits, spot)
  {
    var dfSpot, ps := SpotFactor(E, valDay, deposits, spot), DepositPillars(deposits);
    FrozenSpotIsPositive(E, valDay, deposits, spot);
    DepositPillarsHold(deposits);
    hide DepositPillars, SpotFactor, ExpLn.Valid;
    var s := [Pillar(valDay, 1.0)] + ps + [Pillar(spot, dfSpot)];
    AsMapEntries(s);
    var m := AsMap(s);
    assert s[0].day in m && s[|s| - 1].day in m;
    forall k | k in m ensures m[k] > 0.0 && valDay <= k && (k == valDay ==> m[k] == 1.0) {
      assert Pillar(k, m[k]) in s;
    }
    assert s[..|s| - 1] + [s[|s| - 1]] == s;
    assert First(m) in m;
  }

  /** The curve of the overnight deposit alone. */
  function OvernightCurve(valDay: int, onDay: int, dfOn: real): (m: map<int, real>)
    ensures valDay in m
  {
    map[valDay := 1.0, onDay := dfOn][valDay := 1.0]
  }

  /** The frozen value is what the overnight curve itself returns on the spot date. */
  lemma SpotIsFrozenOnTheCurve(E: ExpLn, valDay: int, onDay: int, dfOn: real, spot: int)
    requires E.Valid() && dfOn > 0.0 && valDay < onDay && (spot == valDay || onDay <= spot)
    ensures FrozenSpot(E, valDay, onDay, dfOn, spot) == Df(E, OvernightCurve(valDay, onDay, dfOn), spot)
  {
    var n := OvernightCurve(valDay, onDay, dfOn);
    assert onDay in n;
    assert First(n) == valDay && Last(n) == onDay && n[valDay] == 1.0 && n[onDay] == dfOn;
    hide OvernightCurve, First, Last, ExpLn.Valid;
    if spot > valDay {
      assert Days(spot - valDay) / 365.25 > 0.0;
      assert Df(E, n, spot) == Extrapolated(E, valDay, onDay, dfOn, spot);
    } else {
      assert Df(E, n, spot) == 1.0;
    }
  }
}
