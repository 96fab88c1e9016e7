/** A discount curve as its pillars: (day, discount factor) pairs, log-linear in
    between. The list may repeat a day; the last entry wins when it is sorted. */
module Pillars {
  import opened Options
  import opened Reals

  datatype Pillar = Pillar(day: int, df: real)

  /** The dictionary a pillar list denotes: a later entry replaces an earlier one. */
  function AsMap(ps: seq<Pillar>): map<int, real> {
    if ps == [] then map[] else AsMap(ps[..|ps| - 1])[ps[|ps| - 1].day := ps[|ps| - 1].df]
  }

  predicate Increasing(s: seq<Pillar>) {
    forall i, j :: 0 <= i < j < |s| ==> s[i].day < s[j].day
  }

  predicate Positive(m: map<int, real>) {
    forall k :: k in m ==> m[k] > 0.0
  }

  // ----- the first and last pillar, and the pillars around a day -----

  lemma HasMember(s: set<int>)
    ensures s == {} || exists k :: k in s
  {
    if forall k :: k !in s { assert s == {}; }
  }

  lemma {:induction false} ExtremesExist(s: set<int>)
    requires s != {}
    ensures exists k :: k in s && forall j :: j in s ==> k <= j
    ensures exists k :: k in s && forall j :: j in s ==> j <= k
    decreases |s|
  {
    HasMember(s);
    var x :| x in s;
    var rest := s - {x};
    if rest == {} {
      assert s == {x};
    } else {
      ExtremesExist(rest);
      var a :| a in rest && forall j :: j in rest ==> a <= j;
      var b :| b in rest && forall j :: j in rest ==> j <= b;
      var least, greatest := if a <= x then a else x, if b >= x then b else x;
      assert least in s && greatest in s;
      forall j | j in s ensures least <= j <= greatest {
        if j != x { assert j in rest; }
      }
    }
  }

  function First(m: map<int, real>): (k: int)
    requires m != map[]
    ensures k in m && forall j :: j in m ==> k <= j
  {
    ExtremesExist(m.Keys);
    var k :| k in m && forall j :: j in m ==> k <= j;
    k
  }

  function Last(m: map<int, real>): (k: int)
    requires m != map[]
    ensures k in m && forall j :: j in m ==> j <= k
  {
    ExtremesExist(m.Keys);
    var k :| k in m && forall j :: j in m ==> j <= k;
    k
  }

  lemma {:induction false} FloorExists(m: map<int, real>, x: int, d: int)
    requires x in m && x <= d
    ensures exists k :: k in m && k <= d && forall j :: j in m && j <= d ==> j <= k
    decreases d - x
  {
    if j :| j in m && x < j <= d { FloorExists(m, j, d); }
  }

  lemma {:induction false} CeilExists(m: map<int, real>, x: int, d: int)
    requires x in m && d < x
    ensures exists k :: k in m && d < k && forall j :: j in m && d < j ==> k <= j
    decreases x - d
  {
    if j :| j in m && d < j < x { CeilExists(m, j, d); }
  }

  /** The greatest pillar day on or before `d`. */
  ghost function Floor(m: map<int, real>, d: int): (k: int)
    requires m != map[] && First(m) <= d
    ensures k in m && k <= d && forall j :: j in m && j <= d ==> j <= k
  {
    FloorExists(m, First(m), d);
    var k :| k in m && k <= d && forall j :: j in m && j <= d ==> j <= k;
    k
  }

  /** The least pillar day after `d`. */
  ghost function Ceil(m: map<int, real>, d: int): (k: int)
    requires m != map[] && d < Last(m)
    ensures k in m && d < k && forall j :: j in m && d < j ==> k <= j
  {
    CeilExists(m, Last(m), d);
    var k :| k in m && d < k && forall j :: j in m && d < j ==> k <= j;
    k
  }

  // ----- the curve -----

  function Days(n: int): real {
    n as real
  }

  function AtLeastOne(n: int): int {
    if n >= 1 then n else 1
  }

  function Extrapolated(E: ExpLn, origin: int, d0: int, df0: real, d: int): real {
    var t0 := Days(AtLeastOne(d0 - origin)) / 365.25;
    var t1 := Days(d - origin) / 365.25;
    var r := if df0 > 0.0 && t0 > 0.0 then -E.ln(df0) / t0 else 0.0;
    E.exp(-r * t1)
  }

  function LogLinear(E: ExpLn, d0: int, df0: real, d1: int, df1: real, d: int): real {
    E.exp(Mix(Fraction(d - d0, d1 - d0), E.ln(df0), E.ln(df1)))
  }

  function Fraction(part: int, whole: int): real {
    Days(part) / Days(AtLeastOne(whole))
  }

  function Mix(t: real, a: real, b: real): real {
    (1.0 - t) * a + t * b
  }

  /** The point at distance `x` on the line through `a` with slope `s`. */
  function Line(a: real, x: real, s: real): real {
    a + x * s
  }

  /** The discount factor at day `d`: flat before the first pillar, log-linear between
      the pillars around `d`, and at the last pillar's zero rate beyond it. */
  ghost function Df(E: ExpLn, m: map<int, real>, d: int): real
    requires m != map[]
  {
    if d <= First(m) then m[First(m)]
    else if d >= Last(m) then Extrapolated(E, First(m), Last(m), m[Last(m)], d)
    else
      var lo, hi := Floor(m, d), Ceil(m, d);
      LogLinear(E, lo, m[lo], hi, m[hi], d)
  }

  // ----- sorting the list -----

  /** `sorted(d.items())`. */
  function SortedItems(m: map<int, real>): (s: seq<Pillar>)
    decreases |m|
  {
    if m == map[] then []
    else
      var k := First(m);
      [Pillar(k, m[k])] + SortedItems(m - {k})
  }

  ghost predicate HasDay(s: seq<Pillar>, k: int) {
    exists i :: 0 <= i < |s| && s[i].day == k
  }

  lemma HasDayOfCons(p: Pillar, s: seq<Pillar>, k: int)
    ensures HasDay([p] + s, k) <==> p.day == k || HasDay(s, k)
  {
    if p.day == k { assert ([p] + s)[0].day == k; }
    if HasDay(s, k) {
      var i :| 0 <= i < |s| && s[i].day == k;
      assert ([p] + s)[i + 1].day == k;
    }
    if HasDay([p] + s, k) && p.day != k {
      var i :| 0 <= i < |[p] + s| && ([p] + s)[i].day == k;
      assert s[i - 1].day == k;
    }
  }

  /** Every entry of `s` is an entry of `m`. */
  ghost predicate EntriesOf(s: seq<Pillar>, m: map<int, real>) {
    forall i :: 0 <= i < |s| ==> s[i].day in m && m[s[i].day] == s[i].df
  }

  lemma ConsHoldsTheMap(m: map<int, real>, k: int, rest: seq<Pillar>)
    requires k in m && forall j :: j in m ==> k <= j
    requires Increasing(rest) && EntriesOf(rest, m - {k})
    requires forall j :: j in m - {k} ==> HasDay(rest, j)
    ensures Increasing([Pillar(k, m[k])] + rest) && EntriesOf([Pillar(k, m[k])] + rest, m)
    ensures forall j :: j in m ==> HasDay([Pillar(k, m[k])] + rest, j)
  {
    forall j | j in m ensures HasDay([Pillar(k, m[k])] + rest, j) {
      HasDayOfCons(Pillar(k, m[k]), rest, j);
      if j != k { assert j in m - {k}; }
    }
    forall i | 0 <= i < |rest| ensures k < rest[i].day && rest[i].day in m && m[rest[i].day] == rest[i].df {
      assert rest[i].day in m - {k};
    }
  }

  lemma {:induction false} SortedItemsHoldTheMap(m: map<int, real>)
    ensures Increasing(SortedItems(m)) && EntriesOf(SortedItems(m), m)
    ensures forall k :: k in m ==> HasDay(SortedItems(m), k)
    decreases |m|
  {
    if m != map[] {
      var k := First(m);
      var m' := m - {k};
      var rest := SortedItems(m');
      SortedItemsHoldTheMap(m');
      ConsHoldsTheMap(m, k, rest);
    }
  }

  lemma {:induction false} AsMapOfIncreasing(s: seq<Pillar>)
    requires Increasing(s)
    ensures EntriesOf(s, AsMap(s))
    ensures forall k :: k in AsMap(s) ==> HasDay(s, k)
  {
    if s != [] {
      var init := s[..|s| - 1];
      AsMapOfIncreasing(init);
      forall k | k in AsMap(s) ensures HasDay(s, k) {
        if k == s[|s| - 1].day {
        } else {
          assert HasDay(init, k);
          var i :| 0 <= i < |init| && init[i].day == k;
          assert s[i].day == k;
        }
      }
      assert forall i :: 0 <= i < |init| ==> s[i] == init[i];
    }
  }

  /** Maps with the same entries and no others are equal. */
  lemma EntriesDetermineMap(s: seq<Pillar>, m: map<int, real>, n: map<int, real>)
    requires EntriesOf(s, m) && EntriesOf(s, n)
    requires (forall k :: k in m ==> HasDay(s, k)) && forall k :: k in n ==> HasDay(s, k)
    ensures m == n
  {
    forall k | k in m || k in n ensures k in m && k in n && m[k] == n[k] {
      assert HasDay(s, k);
      var i :| 0 <= i < |s| && s[i].day == k;
    }
  }

  /** Sorting and deduplicating does not change what the list denotes. */
  lemma SortedItemsDenoteTheMap(m: map<int, real>)
    ensures Increasing(SortedItems(m)) && AsMap(SortedItems(m)) == m
  {
    hide AsMap, SortedItems, EntriesOf, HasDay;
    SortedItemsHoldTheMap(m);
    AsMapOfIncreasing(SortedItems(m));
    EntriesDetermineMap(SortedItems(m), AsMap(SortedItems(m)), m);
  }

  method SortedDedup(pils: seq<Pillar>) returns (s: seq<Pillar>)
    ensures s == SortedItems(AsMap(pils))
    ensures Increasing(s) && AsMap(s) == AsMap(pils)
  {
    var d: map<int, real> := map[];
    var i := 0;
    while i < |pils|
      invariant 0 <= i <= |pils|
      invariant d == AsMap(pils[..i])
    {
      d := d[pils[i].day := pils[i].df];
      assert pils[..i + 1][..i] == pils[..i];
      i := i + 1;
    }
    assert pils[..|pils|] == pils;
    s := SortedItems(d);
    SortedItemsDenoteTheMap(d);
  }

  lemma EndsOfIncreasing(s: seq<Pillar>)
    requires Increasing(s) && s != []
    ensures AsMap(s) != map[]
    ensures First(AsMap(s)) == s[0].day && AsMap(s)[s[0].day] == s[0].df
    ensures Last(AsMap(s)) == s[|s| - 1].day && AsMap(s)[s[|s| - 1].day] == s[|s| - 1].df
  {
    var m := AsMap(s);
    AsMapOfIncreasing(s);
    assert s[0].day in m && s[|s| - 1].day in m;
    assert HasDay(s, First(m)) && HasDay(s, Last(m));
    var i :| 0 <= i < |s| && s[i].day == First(m);
    var j :| 0 <= j < |s| && s[j].day == Last(m);
  }

  lemma BracketOfIncreasing(s: seq<Pillar>, lo: nat, d: int)
    requires Increasing(s) && lo + 1 < |s|
    requires s[lo].day <= d < s[lo + 1].day
    ensures AsMap(s) != map[] && First(AsMap(s)) <= d < Last(AsMap(s))
    ensures Floor(AsMap(s), d) == s[lo].day && AsMap(s)[s[lo].day] == s[lo].df
    ensures Ceil(AsMap(s), d) == s[lo + 1].day && AsMap(s)[s[lo + 1].day] == s[lo + 1].df
  {
    var m := AsMap(s);
    AsMapOfIncreasing(s);
    EndsOfIncreasing(s);
    assert s[lo].day in m && s[lo + 1].day in m;
    assert HasDay(s, Floor(m, d)) && HasDay(s, Ceil(m, d));
    var i :| 0 <= i < |s| && s[i].day == Floor(m, d);
    assert i <= lo;
    var j :| 0 <= j < |s| && s[j].day == Ceil(m, d);
    assert lo + 1 <= j;
  }

  /** The binary search for the surrounding pillars finds the bracket of `d`. */
  method InterpDf(E: ExpLn, d: int, pillars: seq<Pillar>) returns (r: Option<real>)
    requires Increasing(pillars)
    ensures pillars == [] <==> r == None
    ensures pillars != [] ==> AsMap(pillars) != map[] && r == Some(Df(E, AsMap(pillars), d))
  {
    if pillars == [] { return None; }
    EndsOfIncreasing(pillars);
    var n := |pillars|;
    if d <= pillars[0].day { return Some(pillars[0].df); }
    if d >= pillars[n - 1].day {
      return Some(Extrapolated(E, pillars[0].day, pillars[n - 1].day, pillars[n - 1].df, d));
    }
    var lo, hi := 0, n - 1;
    while lo + 1 < hi
      invariant 0 <= lo < hi <= n - 1
      invariant pillars[lo].day <= d < pillars[hi].day
      decreases hi - lo
    {
      var mid := (lo + hi) / 2;
      if pillars[mid].day <= d { lo := mid; } else { hi := mid; }
    }
    BracketOfIncreasing(pillars, lo, d);
    return Some(LogLinear(E, pillars[lo].day, pillars[lo].df, pillars[hi].day, pillars[hi].df, d));
  }

  // ----- what moves a discount factor, and what does not -----

  /** The two curves have the same pillars up to and including day `p`, a pillar. */
  ghost predicate AgreeUpTo(m: map<int, real>, n: map<int, real>, p: int) {
    p in m && p in n && forall k :: k <= p ==> (k in m <==> k in n) && (k in m && k in n ==> m[k] == n[k])
  }

  /** The first pillar is the valuation date, with discount factor 1. */
  ghost predicate Anchored(m: map<int, real>) {
    m != map[] && Positive(m) && m[First(m)] == 1.0
  }

  /** The slope of the log discount factor to the right of pillar `lo`. */
  ghost function Slope(E: ExpLn, m: map<int, real>, lo: int): real
    requires lo in m
  {
    if lo < Last(m) then (E.ln(m[Ceil(m, lo)]) - E.ln(m[lo])) / Days(Ceil(m, lo) - lo)
    else if First(m) < lo then E.ln(m[lo]) / Days(lo - First(m))
    else 0.0
  }

  lemma LnOfOne(E: ExpLn)
    requires E.Valid()
    ensures E.ln(1.0) == 0.0
  {
  }

  lemma ScaledQuotient(x: real, a: real, b: real)
    requires b > 0.0
    ensures -(-x / (b / 365.25)) * (a / 365.25) == a * (x / b)
  {
  }

  lemma MixIsALine(part: int, whole: int, a: real, b: real)
    requires whole > 0
    ensures Mix(Fraction(part, whole), a, b) == Line(a, Days(part), (b - a) / Days(whole))
  {
  }

  lemma Shift(x: real, y: real, s: real)
    ensures (x + y) * s == x * s + y * s
  {
  }

  lemma InteriorIsALine(E: ExpLn, m: map<int, real>, d: int)
    requires Anchored(m) && First(m) < d < Last(m)
    ensures Df(E, m, d) == E.exp(Line(E.ln(m[Floor(m, d)]), Days(d - Floor(m, d)), Slope(E, m, Floor(m, d))))
  {
    var lo, hi := Floor(m, d), Ceil(m, d);
    assert lo < Last(m) && hi == Ceil(m, lo);
    MixIsALine(d - lo, hi - lo, E.ln(m[lo]), E.ln(m[hi]));
  }

  lemma TailIsALine(E: ExpLn, m: map<int, real>, d: int)
    requires E.Valid() && Anchored(m) && First(m) < d && Last(m) <= d
    ensures Df(E, m, d) == E.exp(Line(E.ln(m[Last(m)]), Days(d - Last(m)), Slope(E, m, Last(m))))
  {
    LnOfOne(E);
    var first, last := First(m), Last(m);
    var a := E.ln(m[last]);
    ScaledQuotient(a, Days(d - first), Days(AtLeastOne(last - first)));
    if first < last {
      var s := Slope(E, m, last);
      assert Days(d - first) == Days(last - first) + Days(d - last);
      Shift(Days(last - first), Days(d - last), s);
    }
  }

  /** Between two pillars, and beyond the last, the log discount factor is a line. */
  lemma DfIsALine(E: ExpLn, m: map<int, real>, d: int)
    requires E.Valid() && Anchored(m) && First(m) <= d
    ensures Df(E, m, d) == E.exp(Line(E.ln(m[Floor(m, d)]), Days(d - Floor(m, d)), Slope(E, m, Floor(m, d))))
  {
    if d == First(m) {
      LnOfOne(E);
      assert Floor(m, d) == d;
    } else if d < Last(m) {
      InteriorIsALine(E, m, d);
    } else {
      TailIsALine(E, m, d);
    }
  }

  lemma DfIsPositive(E: ExpLn, m: map<int, real>, d: int)
    requires E.Valid() && Anchored(m)
    ensures Df(E, m, d) > 0.0
  {
  }

  /** At a pillar the curve returns the pillar's discount factor exactly. */
  lemma DfAtPillar(E: ExpLn, m: map<int, real>, d: int)
    requires E.Valid() && Anchored(m) && d in m
    ensures Df(E, m, d) == m[d]
  {
  }

  /** Pillars after `p` have no say on or before `p`. */
  lemma DfDependsOnPillarsUpTo(E: ExpLn, m: map<int, real>, n: map<int, real>, p: int, d: int)
    requires E.Valid() && Anchored(m) && Anchored(n) && AgreeUpTo(m, n, p) && d <= p
    ensures Df(E, m, d) == Df(E, n, d)
  {
    assert First(m) <= p && First(n) <= p;
    assert First(m) in n && First(n) in m;
    assert First(m) == First(n);
    if d == p {
      DfAtPillar(E, m, d);
      DfAtPillar(E, n, d);
    } else if First(m) < d {
      assert Floor(m, d) in n && Floor(n, d) in m;
      assert Floor(m, d) == Floor(n, d);
      assert Ceil(m, d) <= p && Ceil(n, d) <= p;
      assert Ceil(m, d) in n && Ceil(n, d) in m;
      assert Ceil(m, d) == Ceil(n, d);
    }
  }

  /** No pillar of `m` lies in `[d, k)`: `d` is interpolated or extrapolated across `k`. */
  ghost predicate Uncovered(m: map<int, real>, d: int, k: int) {
    forall p :: p in m ==> p < d || k <= p
  }

  /** Two lines through one point differ to its right on the same side everywhere. */
  lemma LinesFromOnePoint(a: real, x: real, y: real, s: real, s': real, w: real)
    requires x > 0.0 && y > 0.0 && s' == (w - a) / y
    ensures Line(a, x, s') < Line(a, x, s) <==> w < Line(a, y, s)
    ensures Line(a, x, s') > Line(a, x, s) <==> w > Line(a, y, s)
  {
  }

  lemma ExpOrder(E: ExpLn, x: real, y: real)
    requires E.Valid()
    ensures x < y <==> E.exp(x) < E.exp(y)
    ensures x == y <==> E.exp(x) == E.exp(y)
  {
  }

  /** Setting pillar `k` across an uncovered date moves that date's discount factor to
      the side of the old curve on which the new pillar lies, and leaves it where it
      was exactly when the new pillar lies on the old curve. */
  lemma SetMovesUncoveredDates(E: ExpLn, m: map<int, real>, k: int, v: real, d: int)
    requires E.Valid() && Anchored(m) && First(m) < d < k && v > 0.0 && Uncovered(m, d, k)
    ensures Anchored(m[k := v])
    ensures Df(E, m[k := v], d) < Df(E, m, d) <==> v < Df(E, m, k)
    ensures Df(E, m[k := v], d) > Df(E, m, d) <==> v > Df(E, m, k)
  {
    var n := m[k := v];
    var lo := Floor(m, d);
    BracketAfterSet(m, k, v, d);
    var a, w := E.ln(m[lo]), E.ln(v);
    var s, s' := Slope(E, m, lo), Slope(E, n, lo);
    var x, y := Days(d - lo), Days(k - lo);
    assert x > 0.0 && y > 0.0 && s' == (w - a) / y;
    DfIsALine(E, m, d);
    DfIsALine(E, n, d);
    ValueAcrossUncovered(E, m, k, d);
    hide Df, Slope, Floor, Ceil, Line, Anchored, Uncovered;
    assert E.exp(w) == v;
    hide ExpLn.Valid;
    LinesFromOnePoint(a, x, y, s, s', w);
    ExpOrders(E, Line(a, x, s'), Line(a, x, s));
    ExpOrders(E, w, Line(a, y, s));
  }

  lemma ExpOrders(E: ExpLn, x: real, y: real)
    requires E.Valid()
    ensures x < y <==> E.exp(x) < E.exp(y)
    ensures x > y <==> E.exp(x) > E.exp(y)
  {
    ExpOrder(E, x, y);
    ExpOrder(E, y, x);
  }

  lemma LineReaches(a: real, y: real, b: real)
    requires y > 0.0
    ensures Line(a, y, (b - a) / y) == b
  {
  }

  lemma ValueAcrossUncovered(E: ExpLn, m: map<int, real>, k: int, d: int)
    requires E.Valid() && Anchored(m) && First(m) < d < k && Uncovered(m, d, k)
    ensures Df(E, m, k) == E.exp(Line(E.ln(m[Floor(m, d)]), Days(k - Floor(m, d)), Slope(E, m, Floor(m, d))))
  {
    var lo := Floor(m, d);
    if k in m {
      DfAtPillar(E, m, k);
      assert lo < Last(m) && Ceil(m, lo) == k;
      LineReaches(E.ln(m[lo]), Days(k - lo), E.ln(m[k]));
    } else {
      DfIsALine(E, m, k);
      assert Floor(m, k) == lo;
    }
  }

  lemma BracketAfterSet(m: map<int, real>, k: int, v: real, d: int)
    requires Anchored(m) && First(m) < d < k && v > 0.0 && Uncovered(m, d, k)
    ensures Anchored(m[k := v]) && First(m[k := v]) == First(m)
    ensures Floor(m, d) < d && Floor(m[k := v], d) == Floor(m, d)
    ensures Floor(m, d) < Last(m[k := v]) && Ceil(m[k := v], Floor(m, d)) == k
  {
    var n := m[k := v];
    assert First(m) in n && First(n) in m + map[k := v];
    var lo := Floor(m, d);
    assert lo in n && k in n;
  }
}
