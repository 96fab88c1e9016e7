/** The pricer that rolls a Bermudan and a European value array back through a fitted
    tree, proved to compute the root values of the backward induction. */
module SwaptionPricer {
  import opened Reals
  import opened TreeProbabilities
  import opened TreeInduction
  import opened TreePricing
  import opened TrinomialTree

  datatype Result = Result(npv: real, european: real, premium: real, dates: nat)
  datatype Outcome = Priced(result: Result) | Refused

  function Time(g: Grid, i: nat): real {
    i as real * g.dt
  }

  /** The value of entering the swap at step `i` and node `j`. */
  function Entry(g: Grid, bond: BondPrice, terms: SwapTerms, i: nat, j: int): real
    requires terms.Valid()
  {
    SwapPv(bond, Time(g, i), g.ShortRate(Shift(g, i), j), terms)
  }

  function NodePay(g: Grid, bond: BondPrice, terms: SwapTerms): Payoff
    requires terms.Valid()
  {
    (i: nat, j: int) => Entry(g, bond, terms, i, j)
  }

  // ----- exercise times on the grid -----

  /** Rounding to the nearest integer, ties to the even one. */
  function Round(x: real): int {
    var f := x.Floor;
    var d := x - f as real;
    if d < 0.5 || (d == 0.5 && f % 2 == 0) then f else f + 1
  }

  function Snapped(g: Grid, t: real): int
    requires g.dt > 0.0
  {
    Round(t / g.dt)
  }

  function Scaled(x: real, d: real): real {
    x * d
  }

  /** How far step `k` is from a time. */
  function Gap(g: Grid, k: int, t: real): real {
    Abs(Scaled(k as real, g.dt) - t)
  }

  /** No step is nearer to an exercise time than the one it is snapped to. */
  lemma SnappedIsNearest(g: Grid, t: real, k: int)
    requires g.dt > 0.0
    ensures Gap(g, Snapped(g, t), t) <= Gap(g, k, t)
  {
    hide Round, Abs, Scaled;
    RoundIsNearest(t / g.dt, k);
    Undivided(t, g.dt);
    NearestScaled(Snapped(g, t) as real, k as real, t / g.dt, g.dt);
  }

  lemma Undivided(t: real, d: real)
    requires d > 0.0
    ensures Scaled(t / d, d) == t
  {
  }

  lemma NearestScaled(a: real, b: real, x: real, d: real)
    requires d > 0.0 && Abs(a - x) <= Abs(b - x)
    ensures Abs(Scaled(a, d) - Scaled(x, d)) <= Abs(Scaled(b, d) - Scaled(x, d))
  {
    hide Abs, Scaled;
    ScaledGap(a, x, d);
    ScaledGap(b, x, d);
    ScaledOrder(Abs(a - x), Abs(b - x), d);
  }

  lemma ScaledGap(a: real, x: real, d: real)
    requires d > 0.0
    ensures Abs(Scaled(a, d) - Scaled(x, d)) == Scaled(Abs(a - x), d)
  {
    Distributes(a, x, d);
    ScaledOrder(0.0, Abs(a - x), d);
  }

  lemma Distributes(a: real, b: real, d: real)
    ensures Scaled(a, d) - Scaled(b, d) == Scaled(a - b, d) == -Scaled(b - a, d)
  {
  }

  lemma RoundIsNearest(x: real, k: int)
    ensures Abs(Round(x) as real - x) <= Abs(k as real - x)
  {
    hide Round;
    RoundIsEither(x);
    if k > x.Floor { assert k as real >= x.Floor as real + 1.0; } else { assert k as real <= x.Floor as real; }
  }

  lemma RoundIsEither(x: real)
    ensures x.Floor as real <= x < x.Floor as real + 1.0
    ensures (Round(x) == x.Floor && x - x.Floor as real <= 0.5) || (Round(x) == x.Floor + 1 && x - x.Floor as real >= 0.5)
  {
  }

  lemma ScaledOrder(a: real, b: real, d: real)
    requires a <= b && d > 0.0
    ensures Scaled(a, d) <= Scaled(b, d)
  {
  }

  predicate OnGrid(g: Grid, t: real)
    requires g.dt > 0.0
  {
    Gap(g, Snapped(g, t), t) <= 0.000001 && 0 < Snapped(g, t) <= g.n
  }

  predicate Distinct(times: seq<real>) {
    forall i, j :: 0 <= i < j < |times| ==> times[i] != times[j]
  }

  /** What the pricer demands of the exercise times and of the swap's start. */
  predicate Accepted(g: Grid, times: seq<real>, effective: real)
    requires g.dt > 0.0
  {
    && times != [] && Distinct(times)
    && (forall t :: t in times ==> 0.0 < t <= g.n as real * g.dt + 0.000000001 && OnGrid(g, t))
    && exists t :: t in times && effective >= t - 0.000000001
  }

  /** Times on distinct steps of the grid, one of them no later than the swap's start, are accepted. */
  lemma GridTimesAreAccepted(g: Grid, ks: seq<nat>, effective: real)
    requires g.dt > 0.0 && ks != [] && forall i :: 0 <= i < |ks| ==> 1 <= ks[i] <= g.n
    requires forall i, j :: 0 <= i < j < |ks| ==> ks[i] != ks[j]
    requires exists i :: 0 <= i < |ks| && Time(g, ks[i]) <= effective
    ensures Accepted(g, seq(|ks|, i requires 0 <= i < |ks| => Time(g, ks[i])), effective)
  {
    hide Time, OnGrid;
    var times := seq(|ks|, i requires 0 <= i < |ks| => Time(g, ks[i]));
    forall i | 0 <= i < |ks| ensures 0.0 < times[i] <= g.n as real * g.dt && OnGrid(g, times[i]) {
      StepTime(g, ks[i]);
    }
    forall i, j | 0 <= i < j < |times| ensures times[i] != times[j] {
      StepTime(g, ks[i]);
      StepTime(g, ks[j]);
    }
    var i :| 0 <= i < |ks| && Time(g, ks[i]) <= effective;
    assert times[i] in times;
  }

  lemma StepTime(g: Grid, k: nat)
    requires g.dt > 0.0 && 1 <= k <= g.n
    ensures 0.0 < Time(g, k) <= g.n as real * g.dt && Snapped(g, Time(g, k)) == k && OnGrid(g, Time(g, k))
  {
    ScaledOrder(1.0, k as real, g.dt);
    ScaledOrder(k as real, g.n as real, g.dt);
    SnapsToItself(g, k);
    OnOwnStep(g, k);
  }

  lemma OnOwnStep(g: Grid, k: nat)
    requires g.dt > 0.0 && 1 <= k <= g.n && Snapped(g, Time(g, k)) == k
    ensures OnGrid(g, Time(g, k))
  {
    hide Snapped;
  }

  lemma SnapsToItself(g: Grid, k: nat)
    requires g.dt > 0.0
    ensures Snapped(g, Time(g, k)) == k
  {
    Rescaled(k as real, g.dt);
    assert Time(g, k) / g.dt == k as real;
    assert (k as real).Floor == k;
  }

  lemma Rescaled(x: real, d: real)
    requires d > 0.0
    ensures (x * d) / d == x
  {
  }

  /** Refused are no times, a time given twice, a time at or before now, a time beyond the
      horizon or away from every step, and a swap that starts before all of them. */
  lemma RefusedWhen(g: Grid, times: seq<real>, effective: real)
    requires g.dt > 0.0
    requires
      || times == [] || (exists i, j :: 0 <= i < j < |times| && times[i] == times[j])
      || (exists t :: t in times && (t <= 0.0 || t > g.n as real * g.dt + 0.000000001))
      || (exists t :: t in times && forall k: nat :: 1 <= k <= g.n ==> Gap(g, k, t) > 0.000001)
      || forall t :: t in times ==> effective < t - 0.000000001
    ensures !Accepted(g, times, effective)
  {
    hide OnGrid, Snapped, Gap;
    if t :| t in times && forall k: nat :: 1 <= k <= g.n ==> Gap(g, k, t) > 0.000001 {
      if OnGrid(g, t) { NearAStep(g, t); }
    }
  }

  lemma NearAStep(g: Grid, t: real)
    requires g.dt > 0.0 && OnGrid(g, t)
    ensures 1 <= Snapped(g, t) <= g.n && Gap(g, Snapped(g, t), t) <= 0.000001
  {
  }

  /** The step set is exactly the snapped times, and its latest member is `last`. */
  ghost predicate ScheduleOf(g: Grid, times: seq<real>, steps: set<nat>, last: nat)
    requires g.dt > 0.0
  {
    && (forall t :: t in times ==> Snapped(g, t) in steps)
    && (forall e :: e in steps ==> 0 < e <= last && exists t :: t in times && Snapped(g, t) == e)
    && last in steps && last <= g.n
  }

  method ExerciseSteps(g: Grid, times: seq<real>) returns (steps: set<nat>, last: nat)
    requires g.dt > 0.0 && times != [] && forall t :: t in times ==> OnGrid(g, t)
    ensures ScheduleOf(g, times, steps, last)
  {
    hide Snapped;
    assert forall t :: t in times ==> 0 < Snapped(g, t) <= g.n;
    steps, last := {}, 0;
    var n := 0;
    while n < |times|
      invariant 0 <= n <= |times|
      invariant n > 0 ==> ScheduleOf(g, times[..n], steps, last)
      invariant n == 0 ==> steps == {} && last == 0
    {
      assert times[n] in times;
      var e: nat := Snapped(g, times[n]);
      assert times[..n + 1] == times[..n] + [times[n]];
      assert times[n] in times[..n + 1];
      forall f | f in steps ensures exists t :: t in times[..n + 1] && Snapped(g, t) == f {
        var t :| t in times[..n] && Snapped(g, t) == f;
        assert t in times[..n + 1];
      }
      steps, last := steps + {e}, if e > last then e else last;
      n := n + 1;
    }
    assert times[..n] == times;
  }

  // ----- one step back -----

  lemma ValueAt(g: Grid, steps: set<nat>, pay: Payoff, i: nat, k: nat)
    requires i < g.n && k < g.Width()
    ensures !Reachable(g, i, k) ==> Value(g, steps, pay, i)[k] == 0.0
    ensures Reachable(g, i, k) ==>
      Value(g, steps, pay, i)[k] ==
        var cont := BackNode(g, Alpha(g, i), Value(g, steps, pay, i + 1), k - g.jMax);
        if i in steps then Max(cont, Max(pay(i, k - g.jMax), 0.0)) else cont
  {
  }

  method ContinueNode(tree: HW1FTrinomialTree, i: nat, j: int, next: array<real>) returns (cont: real)
    requires tree.Shape() && tree.ProbsBuilt() && tree.Fitted() && i < tree.g.n
    requires next.Length == tree.g.Width() && InGrid(tree.g.jMax, j)
    ensures cont == BackNode(tree.g, Alpha(tree.g, i), next[..], j)
  {
    hide RowAt, JMax, Destinations, Alpha, HW1FTrinomialTree.HasRow, Decay;
    var g, m, k := tree.g, tree.g.jMax, j + tree.g.jMax;
    var d, z := g.Dests(j), g.Discount(tree.alpha[i], j);
    assert Triple(tree.pUp[k], tree.pMid[k], tree.pDown[k]) == g.Row(j);
    assert tree.alpha[i] == Shift(g, i);
    cont := (tree.pUp[k] * next[d.up + m] + tree.pMid[k] * next[d.mid + m] + tree.pDown[k] * next[d.down + m]) * z;
  }

  method NodePv(tree: HW1FTrinomialTree, i: nat, j: int, bond: BondPrice, terms: SwapTerms) returns (pv: real)
    requires tree.Shape() && tree.Fitted() && i <= tree.g.n && terms.Valid()
    ensures pv == NodePay(tree.g, bond, terms)(i, j)
  {
    hide HW1FTrinomialTree.HasRow, FloatLeg, FixedLeg, QRow;
    var g, shift := tree.g, tree.alpha[i];
    assert shift == Shift(g, i);
    var t, r := Time(g, i), g.ShortRate(shift, j);
    pv := SwapPvAtNode(bond, t, r, terms);
    ghost var pay := NodePay(g, bond, terms);
    assert pay(i, j) == Entry(g, bond, terms, i, j);
  }

  method RollNode(tree: HW1FTrinomialTree, i: nat, j: int, bermNext: array<real>, eurNext: array<real>,
      steps: set<nat>, last: nat, bond: BondPrice, terms: SwapTerms) returns (berm: real, eur: real)
    requires tree.Shape() && tree.ProbsBuilt() && tree.Fitted() && i < tree.g.n && terms.Valid() && last in steps
    requires bermNext[..] == Value(tree.g, steps, NodePay(tree.g, bond, terms), i + 1)
    requires eurNext[..] == Value(tree.g, {last}, NodePay(tree.g, bond, terms), i + 1)
    requires InGrid(tree.g.jMax, j) && Reachable(tree.g, i, j + tree.g.jMax)
    ensures berm == Value(tree.g, steps, NodePay(tree.g, bond, terms), i)[j + tree.g.jMax]
    ensures eur == Value(tree.g, {last}, NodePay(tree.g, bond, terms), i)[j + tree.g.jMax]
  {
    hide RowAt, JMax, Value, Alpha, BackNode, HW1FTrinomialTree.Fitted, HW1FTrinomialTree.ProbsBuilt, NodePay, SwapPv;
    ghost var pay := NodePay(tree.g, bond, terms);
    berm := ContinueNode(tree, i, j, bermNext);
    eur := ContinueNode(tree, i, j, eurNext);
    ValueAt(tree.g, steps, pay, i, j + tree.g.jMax);
    ValueAt(tree.g, {last}, pay, i, j + tree.g.jMax);
    if i in steps {
      var pv := NodePv(tree, i, j, bond, terms);
      var immediate := Max(pv, 0.0);
      berm := Max(berm, immediate);
      if i == last {
        eur := Max(eur, immediate);
      }
    }
  }

  /** Fresh zeroed arrays are filled over the reachable nodes of step `i`. */
  method RollStep(tree: HW1FTrinomialTree, i: nat, bermNext: array<real>, eurNext: array<real>,
      steps: set<nat>, last: nat, bond: BondPrice, terms: SwapTerms) returns (berm: array<real>, eur: array<real>)
    requires tree.Shape() && tree.ProbsBuilt() && tree.Fitted() && i < tree.g.n && terms.Valid() && last in steps
    requires bermNext[..] == Value(tree.g, steps, NodePay(tree.g, bond, terms), i + 1)
    requires eurNext[..] == Value(tree.g, {last}, NodePay(tree.g, bond, terms), i + 1)
    ensures fresh(berm) && fresh(eur)
    ensures berm[..] == Value(tree.g, steps, NodePay(tree.g, bond, terms), i)
    ensures eur[..] == Value(tree.g, {last}, NodePay(tree.g, bond, terms), i)
  {
    hide RowAt, JMax, Value, Alpha, BackNode, HW1FTrinomialTree.Fitted, HW1FTrinomialTree.ProbsBuilt, NodePay, SwapPv;
    var g := tree.g;
    ghost var pay := NodePay(g, bond, terms);
    ghost var b, u := Value(g, steps, pay, i), Value(g, {last}, pay, i);
    berm := new real[g.Width()](k => 0.0);
    eur := new real[g.Width()](k => 0.0);
    forall k | 0 <= k < g.Width() && !Reachable(g, i, k) ensures b[k] == 0.0 && u[k] == 0.0 {
      ValueAt(g, steps, pay, i, k);
      ValueAt(g, {last}, pay, i, k);
    }
    var j := g.Lo(i);
    while j <= g.Hi(i)
      invariant g.Lo(i) <= j <= g.Hi(i) + 1
      invariant berm != eur && fresh(berm) && fresh(eur)
      invariant forall k :: 0 <= k < g.Width() && (k < j + g.jMax || !Reachable(g, i, k)) ==> berm[k] == b[k] && eur[k] == u[k]
    {
      var x, y := RollNode(tree, i, j, bermNext, eurNext, steps, last, bond, terms);
      berm[j + g.jMax], eur[j + g.jMax] := x, y;
      j := j + 1;
    }
  }

  /** The terminal arrays: the floored payoff when the last step is an exercise step. */
  method Terminal(tree: HW1FTrinomialTree, steps: set<nat>, last: nat, bond: BondPrice, terms: SwapTerms)
    returns (berm: array<real>, eur: array<real>)
    requires tree.Shape() && tree.Fitted() && terms.Valid() && last in steps && last <= tree.g.n
    requires forall e :: e in steps ==> e <= last
    ensures fresh(berm) && fresh(eur)
    ensures berm[..] == Value(tree.g, steps, NodePay(tree.g, bond, terms), tree.g.n)
    ensures eur[..] == Value(tree.g, {last}, NodePay(tree.g, bond, terms), tree.g.n)
  {
    hide RowAt, JMax, Alpha, HW1FTrinomialTree.Fitted, NodePay, SwapPv;
    var g := tree.g;
    ghost var pay := NodePay(g, bond, terms);
    berm := new real[g.Width()](k => 0.0);
    eur := new real[g.Width()](k => 0.0);
    if g.n == last {
      ghost var row := ExerciseRow(g, g.n, pay);
      var j := g.Lo(g.n);
      while j <= g.Hi(g.n)
        invariant g.Lo(g.n) <= j <= g.Hi(g.n) + 1
        invariant berm != eur && fresh(berm) && fresh(eur)
        invariant forall k :: 0 <= k < g.Width() && (k < j + g.jMax || !Reachable(g, g.n, k)) ==> berm[k] == row[k] && eur[k] == row[k]
      {
        var pv := NodePv(tree, g.n, j, bond, terms);
        assert row[j + g.jMax] == Max(pv, 0.0);
        berm[j + g.jMax], eur[j + g.jMax] := Max(pv, 0.0), Max(pv, 0.0);
        j := j + 1;
      }
    }
  }

  // ----- the pricer -----

  /** The result for a schedule of steps whose latest is `last`. */
  ghost predicate Prices(g: Grid, steps: set<nat>, last: nat, pay: Payoff, r: Result) {
    && r.npv == RootValue(g, steps, pay) && r.european == RootValue(g, {last}, pay)
    && r.premium == Max(0.0, r.npv - r.european) && r.dates == |steps|
  }

  /** The Bermudan is worth at least its last European. */
  lemma PremiumIsWhole(g: Grid, steps: set<nat>, last: nat, pay: Payoff)
    requires g.E.Valid() && Probable(g) && last in steps
    ensures RootValue(g, steps, pay) >= RootValue(g, {last}, pay)
  {
    hide JMax, Value;
    MoreDatesWorthMore(g, {last}, steps, pay, 0);
  }

  method PriceSwaptionViaTree(tree: HW1FTrinomialTree, times: seq<real>, bond: BondPrice, terms: SwapTerms)
    returns (outcome: Outcome)
    requires tree.Shape() && tree.ProbsBuilt() && tree.Fitted() && tree.g.dt > 0.0 && terms.Valid()
    ensures outcome.Priced? <==> Accepted(tree.g, times, terms.effective)
    ensures outcome.Priced? ==> exists steps, last ::
      ScheduleOf(tree.g, times, steps, last) && Prices(tree.g, steps, last, NodePay(tree.g, bond, terms), outcome.result)
    ensures outcome.Priced? && tree.g.E.Valid() && Probable(tree.g)
      ==> outcome.result.premium == outcome.result.npv - outcome.result.european >= 0.0
  {
    hide RowAt, JMax, Value, Alpha, HW1FTrinomialTree.Fitted, HW1FTrinomialTree.ProbsBuilt, NodePay, SwapPv;
    var g := tree.g;
    if !Accepted(g, times, terms.effective) { return Refused; }
    var steps, last := ExerciseSteps(g, times);
    ghost var pay := NodePay(g, bond, terms);
    var berm, eur := Terminal(tree, steps, last, bond, terms);
    var i := g.n;
    while i > 0
      invariant 0 <= i <= g.n && fresh(berm) && fresh(eur)
      invariant berm[..] == Value(g, steps, pay, i) && eur[..] == Value(g, {last}, pay, i)
    {
      i := i - 1;
      berm, eur := RollStep(tree, i, berm, eur, steps, last, bond, terms);
    }
    var npv, european := berm[g.jMax], eur[g.jMax];
    outcome := Priced(Result(npv, european, Max(0.0, npv - european), |steps|));
    assert Prices(g, steps, last, pay, outcome.result);
    if g.E.Valid() && Probable(g) { PremiumIsWhole(g, steps, last, pay); }
  }
}
