/** Option values on the tree: the Bermudan backward induction, its duality with the
    state prices, and where the Bermudan value lies between European values. */
module TreePricing {
  import opened Reals
  import opened TreeProbabilities
  import opened TreeInduction

  /** What exercise is worth at step `i` and node `j`, before the floor at zero. */
  type Payoff = (nat, int) -> real

  function Intrinsic(x: real): real {
    Max(x, 0.0)
  }

  predicate Reachable(g: Grid, i: nat, k: int) {
    g.Lo(i) <= k - g.jMax <= g.Hi(i)
  }

  /** `max(pay, 0)` on the reachable nodes of step `i`. */
  function ExerciseRow(g: Grid, i: nat, pay: Payoff): (v: seq<real>)
    ensures |v| == g.Width() && forall k :: 0 <= k < |v| ==> v[k] >= 0.0
  {
    var v := seq(g.Width(), k requires 0 <= k < g.Width() =>
      if Reachable(g, i, k) then Intrinsic(pay(i, k - g.jMax)) else 0.0);
    assert forall k :: 0 <= k < |v| ==> v[k] == if Reachable(g, i, k) then Intrinsic(pay(i, k - g.jMax)) else 0.0;
    v
  }

  /** The value row of step `i` for an option exercisable at the steps in `steps`. */
  function Value(g: Grid, steps: set<nat>, pay: Payoff, i: nat): (v: seq<real>)
    requires i <= g.n
    ensures |v| == g.Width()
    decreases g.n - i
  {
    if i == g.n then (if i in steps then ExerciseRow(g, i, pay) else Zeros(g))
    else
      var cont := RollBack(g, Alpha(g, i), i, Value(g, steps, pay, i + 1));
      if i in steps then Better(cont, ExerciseRow(g, i, pay)) else cont
  }

  function Better(a: seq<real>, b: seq<real>): (r: seq<real>)
    requires |a| == |b|
    ensures |r| == |a| && forall k :: 0 <= k < |a| ==> r[k] == Max(a[k], b[k])
  {
    seq(|a|, k requires 0 <= k < |a| => Max(a[k], b[k]))
  }

  /** The value at the root node. */
  function RootValue(g: Grid, steps: set<nat>, pay: Payoff): real {
    Value(g, steps, pay, 0)[g.jMax]
  }

  // ----- duality -----

  lemma NodeOfZeros(g: Grid, alpha: real, v: seq<real>, j: int)
    requires |v| == g.Width() && InGrid(g.jMax, j) && forall k :: 0 <= k < g.Width() ==> v[k] == 0.0
    ensures BackNode(g, alpha, v, j) == 0.0
  {
  }

  /** After its only exercise step an option is worth nothing. */
  lemma {:induction false} NothingAfterwards(g: Grid, e: nat, pay: Payoff, i: nat)
    requires e < i <= g.n
    ensures Value(g, {e}, pay, i) == Zeros(g)
    decreases g.n - i
  {
    hide RowAt, JMax, Destinations, BackNode;
    if i < g.n {
      NothingAfterwards(g, e, pay, i + 1);
      var u := RollBack(g, Alpha(g, i), i, Value(g, {e}, pay, i + 1));
      forall k | 0 <= k < g.Width() ensures u[k] == 0.0 {
        if Reachable(g, i, k) { NodeOfZeros(g, Alpha(g, i), Zeros(g), k - g.jMax); }
      }
      assert u == Zeros(g);
    }
  }

  /** At its only exercise step an option is worth its floored payoff. */
  lemma EuropeanAtExercise(g: Grid, e: nat, pay: Payoff)
    requires e <= g.n
    ensures Value(g, {e}, pay, e) == ExerciseRow(g, e, pay)
  {
    hide RowAt, JMax, Destinations, BackNode;
    if e < g.n {
      NothingAfterwards(g, e, pay, e + 1);
      var cont := RollBack(g, Alpha(g, e), e, Zeros(g));
      forall k | 0 <= k < g.Width() ensures cont[k] == 0.0 {
        if Reachable(g, e, k) { NodeOfZeros(g, Alpha(g, e), Zeros(g), k - g.jMax); }
      }
      var floor := ExerciseRow(g, e, pay);
      forall k | 0 <= k < g.Width() ensures Better(cont, floor)[k] == floor[k] {
        assert floor[k] >= 0.0 && cont[k] == 0.0;
      }
      assert Better(cont, floor) == floor;
    }
  }

  lemma {:induction false} DualityFrom(g: Grid, e: nat, pay: Payoff, i: nat)
    requires i <= e <= g.n
    ensures Inner(QRow(g, i), Value(g, {e}, pay, i), g.Width()) == Inner(QRow(g, e), ExerciseRow(g, e, pay), g.Width())
    decreases e - i
  {
    hide RowAt, JMax, Destinations, BackNode, RollBack, Inner, RollForward;
    if i == e {
      EuropeanAtExercise(g, e, pay);
    } else {
      DualityFrom(g, e, pay, i + 1);
      QInBand(g, i);
      StepDuality(g, Alpha(g, i), i, QRow(g, i), Value(g, {e}, pay, i + 1));
    }
  }

  lemma InnerOfStart(g: Grid, v: seq<real>)
    requires |v| == g.Width()
    ensures Inner(Start(g), v, g.Width()) == v[g.jMax]
  {
    assert Start(g) == AddTo(Zeros(g), g.jMax, 1.0);
    InnerOfAdd(Zeros(g), v, g.Width(), g.jMax, 1.0);
    InnerOfZeros(Zeros(g), v, g.Width());
  }

  /** The European value of the backward induction is the state prices of the exercise
      step times the floored payoff, for any payoff, grid and exercise step. */
  lemma ForwardBackwardDuality(g: Grid, e: nat, pay: Payoff)
    requires e <= g.n
    ensures RootValue(g, {e}, pay) == Inner(QRow(g, e), ExerciseRow(g, e, pay), g.Width())
  {
    hide JMax, Inner;
    DualityFrom(g, e, pay, 0);
    InnerOfStart(g, Value(g, {e}, pay, 0));
  }

  function Negated(pay: Payoff): Payoff {
    (i: nat, j: int) => -pay(i, j)
  }

  /** The plain payoff on the reachable nodes. */
  function PlainRow(g: Grid, i: nat, pay: Payoff): (v: seq<real>)
    ensures |v| == g.Width()
  {
    seq(g.Width(), k requires 0 <= k < g.Width() => if Reachable(g, i, k) then pay(i, k - g.jMax) else 0.0)
  }

  lemma {:induction false} InnerOfDifference(q: seq<real>, a: seq<real>, b: seq<real>, c: seq<real>, n: nat)
    requires n <= |q| && n <= |a| && n <= |b| && n <= |c| && forall k :: 0 <= k < n ==> a[k] - b[k] == c[k]
    ensures Inner(q, a, n) - Inner(q, b, n) == Inner(q, c, n)
  {
    if n > 0 {
      InnerOfDifference(q, a, b, c, n - 1);
      Minus(q[n - 1], a[n - 1], b[n - 1], c[n - 1]);
    }
  }

  lemma Minus(x: real, a: real, b: real, c: real)
    requires a - b == c
    ensures x * a - x * b == x * c
  {
  }

  /** Payer less receiver is the value of the forward swap itself. */
  lemma PayerReceiverParity(g: Grid, e: nat, pay: Payoff)
    requires e <= g.n
    ensures RootValue(g, {e}, pay) - RootValue(g, {e}, Negated(pay)) == Inner(QRow(g, e), PlainRow(g, e, pay), g.Width())
  {
    hide JMax, Value, QRow, Inner;
    ForwardBackwardDuality(g, e, pay);
    ForwardBackwardDuality(g, e, Negated(pay));
    var a, b, c := ExerciseRow(g, e, pay), ExerciseRow(g, e, Negated(pay)), PlainRow(g, e, pay);
    forall k | 0 <= k < g.Width() ensures a[k] - b[k] == c[k] {
      if Reachable(g, e, k) {
        var x := pay(e, k - g.jMax);
        assert a[k] == Intrinsic(x) && b[k] == Intrinsic(-x) && c[k] == x;
      }
    }
    InnerOfDifference(QRow(g, e), a, b, c, g.Width());
  }

  // ----- order -----

  ghost predicate Below(a: seq<real>, b: seq<real>) {
    |a| == |b| && forall k :: 0 <= k < |a| ==> a[k] <= b[k]
  }

  lemma Scaled(c: real, x: real, y: real)
    requires c >= 0.0 && x <= y
    ensures c * x <= c * y && x * c <= y * c
  {
  }

  lemma WeightedOrder(p: Triple<real>, z: real, x: real, y: real, w: real, x': real, y': real, w': real)
    requires AtLeast(p, 0.0) && z >= 0.0 && x <= x' && y <= y' && w <= w'
    ensures Weighted(p, x, y, w, z) <= Weighted(p, x', y', w', z)
  {
  }

  lemma RollBackOrder(g: Grid, alpha: real, i: nat, u: seq<real>, v: seq<real>)
    requires g.E.Valid() && Probable(g) && |u| == g.Width() && Below(u, v)
    ensures Below(RollBack(g, alpha, i, u), RollBack(g, alpha, i, v))
  {
    hide RowAt, JMax, Destinations, Weighted, Decay;
    var a, b := RollBack(g, alpha, i, u), RollBack(g, alpha, i, v);
    forall k | 0 <= k < g.Width() ensures a[k] <= b[k] {
      if Reachable(g, i, k) {
        var j := k - g.jMax;
        var d, m := g.Dests(j), g.jMax;
        assert AtLeast(g.Row(j), 0.0) && g.Discount(alpha, j) > 0.0;
        WeightedOrder(g.Row(j), g.Discount(alpha, j), u[d.up + m], u[d.mid + m], u[d.down + m], v[d.up + m], v[d.mid + m], v[d.down + m]);
        assert a[k] == BackNode(g, alpha, u, j) && b[k] == BackNode(g, alpha, v, j);
      }
    }
  }

  /** Adding exercise dates never lowers the value of any node. */
  lemma {:induction false} MoreDatesWorthMore(g: Grid, s: set<nat>, t: set<nat>, pay: Payoff, i: nat)
    requires g.E.Valid() && Probable(g) && s <= t && i <= g.n
    ensures Below(Value(g, s, pay, i), Value(g, t, pay, i))
    decreases g.n - i
  {
    hide RowAt, JMax, Destinations, RollBack, ExpLn.Valid, Probable, Alpha;
    if i < g.n {
      MoreDatesWorthMore(g, s, t, pay, i + 1);
      RollBackOrder(g, Alpha(g, i), i, Value(g, s, pay, i + 1), Value(g, t, pay, i + 1));
    } else if i in t && i !in s {
      assert Below(Zeros(g), ExerciseRow(g, i, pay));
    }
  }

  lemma {:induction false} ValuesNonNegative(g: Grid, s: set<nat>, pay: Payoff, i: nat)
    requires g.E.Valid() && Probable(g) && i <= g.n
    ensures Below(Zeros(g), Value(g, s, pay, i))
    decreases g.n - i
  {
    hide RowAt, JMax, Destinations, RollBack, ExpLn.Valid, Probable, Alpha;
    if i < g.n {
      ValuesNonNegative(g, s, pay, i + 1);
      var v := Value(g, s, pay, i + 1);
      RollBackOrder(g, Alpha(g, i), i, Zeros(g), v);
      RollBackOfZeros(g, Alpha(g, i), i);
    }
  }

  lemma RollBackOfZeros(g: Grid, alpha: real, i: nat)
    ensures RollBack(g, alpha, i, Zeros(g)) == Zeros(g)
  {
    hide RowAt, JMax, Destinations, BackNode;
    var u := RollBack(g, alpha, i, Zeros(g));
    forall k | 0 <= k < g.Width() ensures u[k] == 0.0 {
      if Reachable(g, i, k) { NodeOfZeros(g, alpha, Zeros(g), k - g.jMax); }
    }
  }

  function Sum(a: seq<real>, b: seq<real>): (r: seq<real>)
    requires |a| == |b|
    ensures |r| == |a| && forall k :: 0 <= k < |a| ==> r[k] == a[k] + b[k]
  {
    seq(|a|, k requires 0 <= k < |a| => a[k] + b[k])
  }

  lemma WeightedOfSum(p: Triple<real>, z: real, x: real, y: real, w: real, x': real, y': real, w': real)
    ensures Weighted(p, x + x', y + y', w + w', z) == Weighted(p, x, y, w, z) + Weighted(p, x', y', w', z)
  {
  }

  lemma RollBackOfSum(g: Grid, alpha: real, i: nat, u: seq<real>, v: seq<real>)
    requires |u| == g.Width() && |v| == g.Width()
    ensures RollBack(g, alpha, i, Sum(u, v)) == Sum(RollBack(g, alpha, i, u), RollBack(g, alpha, i, v))
  {
    hide RowAt, JMax, Destinations, Weighted;
    var w := Sum(u, v);
    var a, b, c := RollBack(g, alpha, i, u), RollBack(g, alpha, i, v), RollBack(g, alpha, i, w);
    forall k | 0 <= k < g.Width() ensures c[k] == a[k] + b[k] {
      if Reachable(g, i, k) {
        var j := k - g.jMax;
        var d, m := g.Dests(j), g.jMax;
        WeightedOfSum(g.Row(j), g.Discount(alpha, j), u[d.up + m], u[d.mid + m], u[d.down + m], v[d.up + m], v[d.mid + m], v[d.down + m]);
        assert a[k] == BackNode(g, alpha, u, j) && b[k] == BackNode(g, alpha, v, j) && c[k] == BackNode(g, alpha, w, j);
      }
    }
    assert c == Sum(a, b);
  }

  /** A joint schedule is worth at most the two schedules apart, at every node. */
  lemma {:induction false} JointAtMostSum(g: Grid, s: set<nat>, t: set<nat>, pay: Payoff, i: nat)
    requires g.E.Valid() && Probable(g) && i <= g.n
    ensures Below(Value(g, s + t, pay, i), Sum(Value(g, s, pay, i), Value(g, t, pay, i)))
    decreases g.n - i
  {
    hide RowAt, JMax, Destinations, RollBack, ExpLn.Valid, Probable, Alpha, ExerciseRow;
    ValuesNonNegative(g, s, pay, i);
    ValuesNonNegative(g, t, pay, i);
    assert i in s + t <==> i in s || i in t;
    if i < g.n {
      var a := Alpha(g, i);
      var u, v, w := Value(g, s, pay, i + 1), Value(g, t, pay, i + 1), Value(g, s + t, pay, i + 1);
      JointAtMostSum(g, s, t, pay, i + 1);
      RollBackOrder(g, a, i, w, Sum(u, v));
      RollBackOfSum(g, a, i, u, v);
      MoreDatesAtLeastCont(g, s, pay, i);
      MoreDatesAtLeastCont(g, t, pay, i);
    }
  }

  lemma MoreDatesAtLeastCont(g: Grid, s: set<nat>, pay: Payoff, i: nat)
    requires i < g.n
    ensures Below(RollBack(g, Alpha(g, i), i, Value(g, s, pay, i + 1)), Value(g, s, pay, i))
    ensures i in s ==> Below(ExerciseRow(g, i, pay), Value(g, s, pay, i))
  {
  }

  function Steps(es: seq<nat>): set<nat> {
    set e | e in es
  }

  /** The European values of a schedule, added up node by node. */
  function EuropeanSum(g: Grid, es: seq<nat>, pay: Payoff, i: nat): (v: seq<real>)
    requires i <= g.n
    ensures |v| == g.Width()
  {
    if es == [] then Zeros(g)
    else Sum(EuropeanSum(g, es[..|es| - 1], pay, i), Value(g, {es[|es| - 1]}, pay, i))
  }

  lemma {:induction false} NothingWithoutDates(g: Grid, pay: Payoff, i: nat)
    requires i <= g.n
    ensures Value(g, {}, pay, i) == Zeros(g)
    decreases g.n - i
  {
    hide RowAt, JMax, Destinations, RollBack, Alpha;
    if i < g.n {
      NothingWithoutDates(g, pay, i + 1);
      RollBackOfZeros(g, Alpha(g, i), i);
    }
  }

  /** At every node the Bermudan is worth at least each single-date European of its
      schedule and at most all of them together. */
  lemma {:induction false} BermudanSandwich(g: Grid, es: seq<nat>, pay: Payoff, i: nat)
    requires g.E.Valid() && Probable(g) && i <= g.n
    ensures Below(Value(g, Steps(es), pay, i), EuropeanSum(g, es, pay, i))
    ensures forall e :: e in es ==> Below(Value(g, {e}, pay, i), Value(g, Steps(es), pay, i))
  {
    hide RowAt, JMax, Destinations, RollBack, ExpLn.Valid, Probable, Alpha, Value;
    forall e | e in es ensures Below(Value(g, {e}, pay, i), Value(g, Steps(es), pay, i)) {
      MoreDatesWorthMore(g, {e}, Steps(es), pay, i);
    }
    if es == [] {
      assert Steps(es) == {};
      NothingWithoutDates(g, pay, i);
    } else {
      var init, last := es[..|es| - 1], es[|es| - 1];
      assert es == init + [last];
      assert Steps(es) == Steps(init) + {last};
      BermudanSandwich(g, init, pay, i);
      JointAtMostSum(g, Steps(init), {last}, pay, i);
    }
  }

  /** The early-exercise premium is never cut off by its floor at zero. */
  lemma PremiumIsNotTruncated(g: Grid, es: seq<nat>, last: nat, pay: Payoff)
    requires g.E.Valid() && Probable(g) && last in es
    ensures Max(0.0, RootValue(g, Steps(es), pay) - RootValue(g, {last}, pay))
         == RootValue(g, Steps(es), pay) - RootValue(g, {last}, pay)
  {
    hide JMax, Value;
    MoreDatesWorthMore(g, {last}, Steps(es), pay, 0);
  }

  /** A better payoff is worth at least as much, at every node. */
  lemma {:induction false} BetterPayoffWorthMore(g: Grid, s: set<nat>, pay: Payoff, pay': Payoff, i: nat)
    requires g.E.Valid() && Probable(g) && i <= g.n && forall e, j :: pay(e, j) <= pay'(e, j)
    ensures Below(Value(g, s, pay, i), Value(g, s, pay', i))
    decreases g.n - i
  {
    hide RowAt, JMax, Destinations, RollBack, ExpLn.Valid, Probable, Alpha;
    if i < g.n {
      BetterPayoffWorthMore(g, s, pay, pay', i + 1);
      RollBackOrder(g, Alpha(g, i), i, Value(g, s, pay, i + 1), Value(g, s, pay', i + 1));
    }
    BetterRow(g, i, pay, pay');
  }

  lemma BetterRow(g: Grid, i: nat, pay: Payoff, pay': Payoff)
    requires forall e, j :: pay(e, j) <= pay'(e, j)
    ensures Below(ExerciseRow(g, i, pay), ExerciseRow(g, i, pay'))
  {
    var a, b := ExerciseRow(g, i, pay), ExerciseRow(g, i, pay');
    forall k | 0 <= k < g.Width() ensures a[k] <= b[k] {
      if Reachable(g, i, k) {
        var x, y := pay(i, k - g.jMax), pay'(i, k - g.jMax);
        assert x <= y && a[k] == Intrinsic(x) && b[k] == Intrinsic(y);
      }
    }
  }

  // ----- the holder takes the better of exercising and waiting -----

  /** Amounts, step by step, that cover the payoff wherever it may be taken and what they are
      worth themselves one step later. */
  ghost predicate Covers(g: Grid, s: set<nat>, pay: Payoff, w: seq<seq<real>>) {
    && |w| == g.n + 1 && (forall i :: 0 <= i <= g.n ==> |w[i]| == g.Width()) && Below(Zeros(g), w[g.n])
    && (forall i: nat :: i <= g.n && i in s ==> Below(ExerciseRow(g, i, pay), w[i]))
    && (forall i: nat :: i < g.n ==> Below(RollBack(g, Alpha(g, i), i, w[i + 1]), w[i]))
  }

  ghost function AllValues(g: Grid, s: set<nat>, pay: Payoff): (w: seq<seq<real>>)
    ensures |w| == g.n + 1 && forall i: nat :: i <= g.n ==> w[i] == Value(g, s, pay, i)
  {
    seq(g.n + 1, i requires 0 <= i <= g.n => Value(g, s, pay, i))
  }

  lemma Transitive(a: seq<real>, b: seq<real>, c: seq<real>)
    requires Below(a, b) && Below(b, c)
    ensures Below(a, c)
  {
  }

  lemma BetterBelow(a: seq<real>, b: seq<real>, c: seq<real>)
    requires |a| == |b| && Below(a, c) && Below(b, c)
    ensures Below(Better(a, b), c)
  {
  }

  /** No amounts that cover the option are less than its values at any node. */
  lemma {:induction false} NoLessCovers(g: Grid, s: set<nat>, pay: Payoff, w: seq<seq<real>>, i: nat)
    requires g.E.Valid() && Probable(g) && i <= g.n && Covers(g, s, pay, w)
    ensures Below(Value(g, s, pay, i), w[i])
    decreases g.n - i
  {
    hide RowAt, JMax, Destinations, RollBack, ExpLn.Valid, Probable, Alpha, ExerciseRow, Below, Better;
    if i < g.n {
      NoLessCovers(g, s, pay, w, i + 1);
      var cont, above := RollBack(g, Alpha(g, i), i, Value(g, s, pay, i + 1)), RollBack(g, Alpha(g, i), i, w[i + 1]);
      RollBackOrder(g, Alpha(g, i), i, Value(g, s, pay, i + 1), w[i + 1]);
      Transitive(cont, above, w[i]);
      if i in s { BetterBelow(cont, ExerciseRow(g, i, pay), w[i]); }
    }
  }

  /** The values of the backward induction cover the option, and are the least amounts that
      do: at every exercise step the holder takes the better of the floored payoff and of
      waiting, and nothing more. */
  lemma ValueIsLeastCover(g: Grid, s: set<nat>, pay: Payoff)
    requires g.E.Valid() && Probable(g)
    ensures Covers(g, s, pay, AllValues(g, s, pay))
    ensures forall w, i: nat :: Covers(g, s, pay, w) && i <= g.n ==> Below(Value(g, s, pay, i), w[i])
  {
    hide RowAt, JMax, Destinations, RollBack, ExpLn.Valid, Probable, Alpha, ExerciseRow;
    var v := AllValues(g, s, pay);
    forall i: nat | i < g.n ensures Below(RollBack(g, Alpha(g, i), i, v[i + 1]), v[i]) && (i in s ==> Below(ExerciseRow(g, i, pay), v[i])) {
      MoreDatesAtLeastCont(g, s, pay, i);
    }
    ValuesNonNegative(g, s, pay, g.n);
    forall w, i: nat | Covers(g, s, pay, w) && i <= g.n ensures Below(Value(g, s, pay, i), w[i]) {
      NoLessCovers(g, s, pay, w, i);
    }
  }
}
