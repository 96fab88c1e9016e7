/** The Hull-White trinomial tree as it is built: the arrays of probabilities, drift
    adjustments and state prices, the check against the curve, the step that is never
    fitted, and the swap value at a node. */
module TrinomialTree {
  import opened Reals
  import opened TreeProbabilities
  import opened TreeInduction
  import opened TreePricing

  // ----- the underlying swap at a node -----

  datatype SwapTerms = SwapTerms(paymentDates: seq<real>, dcf: seq<real>, notional: seq<real>,
      fixedRate: real, isPayer: bool, effective: real)
  {
    ghost predicate Valid() {
      |paymentDates| == |dcf| == |notional|
    }
  }

  /** The bond price `P(t, T)` at short rate `r`. */
  type BondPrice = (real, real, real) -> real

  function StartOf(terms: SwapTerms, k: nat): real
    requires k < |terms.paymentDates|
  {
    if k == 0 then terms.effective else terms.paymentDates[k - 1]
  }

  function BondOrPar(bond: BondPrice, t: real, T: real, r: real): real {
    if T <= t then 1.0 else bond(t, T, r)
  }

  function FloatLeg(bond: BondPrice, t: real, r: real, terms: SwapTerms, n: nat): real
    requires terms.Valid() && n <= |terms.paymentDates|
  {
    if n == 0 then 0.0
    else
      FloatLeg(bond, t, r, terms, n - 1)
      + (if terms.paymentDates[n - 1] <= t then 0.0
         else terms.notional[n - 1] * (BondOrPar(bond, t, StartOf(terms, n - 1), r) - bond(t, terms.paymentDates[n - 1], r)))
  }

  function FixedLeg(bond: BondPrice, t: real, r: real, terms: SwapTerms, n: nat): real
    requires terms.Valid() && n <= |terms.paymentDates|
  {
    if n == 0 then 0.0
    else
      FixedLeg(bond, t, r, terms, n - 1)
      + (if terms.paymentDates[n - 1] <= t then 0.0
         else terms.notional[n - 1] * terms.fixedRate * terms.dcf[n - 1] * bond(t, terms.paymentDates[n - 1], r))
  }

  function SwapPv(bond: BondPrice, t: real, r: real, terms: SwapTerms): real
    requires terms.Valid()
  {
    var n := |terms.paymentDates|;
    var payer := FloatLeg(bond, t, r, terms, n) - FixedLeg(bond, t, r, terms, n);
    if terms.isPayer then payer else -payer
  }

  method SwapPvAtNode(bond: BondPrice, t: real, r: real, terms: SwapTerms) returns (pv: real)
    requires terms.Valid()
    ensures pv == SwapPv(bond, t, r, terms)
  {
    var pvFloat, pvFixed := 0.0, 0.0;
    var k := 0;
    while k < |terms.paymentDates|
      invariant 0 <= k <= |terms.paymentDates|
      invariant pvFloat == FloatLeg(bond, t, r, terms, k) && pvFixed == FixedLeg(bond, t, r, terms, k)
    {
      var tCurr := terms.paymentDates[k];
      if tCurr > t {
        var pCurr := bond(t, tCurr, r);
        var pPrev := BondOrPar(bond, t, StartOf(terms, k), r);
        pvFloat := pvFloat + terms.notional[k] * (pPrev - pCurr);
        pvFixed := pvFixed + terms.notional[k] * terms.fixedRate * terms.dcf[k] * pCurr;
      }
      k := k + 1;
    }
    var payerPv := pvFloat - pvFixed;
    pv := if terms.isPayer then payerPv else -payerPv;
  }

  ghost predicate Bullet(terms: SwapTerms, size: real) {
    terms.Valid() && forall k :: 0 <= k < |terms.notional| ==> terms.notional[k] == size
  }

  ghost predicate DatesIncrease(terms: SwapTerms) {
    && terms.paymentDates != [] && terms.effective < terms.paymentDates[0]
    && forall i, j :: 0 <= i < j < |terms.paymentDates| ==> terms.paymentDates[i] < terms.paymentDates[j]
  }

  /** A bullet swap's floating leg telescopes: par, or the bond to the effective date, less
      the bond to the last payment still ahead. */
  lemma {:induction false} BulletFloatTelescopes(bond: BondPrice, t: real, r: real, terms: SwapTerms, size: real, n: nat)
    requires Bullet(terms, size) && DatesIncrease(terms) && 0 < n <= |terms.paymentDates|
    ensures FloatLeg(bond, t, r, terms, n)
         == if terms.paymentDates[n - 1] <= t then 0.0
            else size * (BondOrPar(bond, t, terms.effective, r) - bond(t, terms.paymentDates[n - 1], r))
  {
    if n > 1 {
      BulletFloatTelescopes(bond, t, r, terms, size, n - 1);
      assert terms.paymentDates[n - 2] < terms.paymentDates[n - 1];
      assert StartOf(terms, n - 1) == terms.paymentDates[n - 2];
      var a := BondOrPar(bond, t, terms.effective, r);
      var b, c := bond(t, terms.paymentDates[n - 2], r), bond(t, terms.paymentDates[n - 1], r);
      Telescope(size, a, b, c);
      if n > 2 { assert terms.paymentDates[0] < terms.paymentDates[n - 2]; }
    }
  }

  lemma Telescope(size: real, a: real, b: real, c: real)
    ensures size * (a - b) + size * (b - c) == size * (a - c)
  {
  }

  // ----- the tree -----

  /** The drift adjustment stored for step `i`. The last step's is never fitted. */
  function Shift(g: Grid, i: nat): real {
    if i < g.n then Alpha(g, i) else 0.0
  }

  class HW1FTrinomialTree {
    const g: Grid
    const pUp: array<real>
    const pMid: array<real>
    const pDown: array<real>
    const alpha: array<real>
    const Q: array2<real>

    ghost predicate Shape() {
      && pUp.Length == pMid.Length == pDown.Length == g.Width()
      && pUp != pMid && pUp != pDown && pMid != pDown && alpha != pUp && alpha != pMid && alpha != pDown
      && alpha.Length == g.n + 1 && Q.Length0 == g.n + 1 && Q.Length1 == g.Width()
    }

    ghost predicate ProbsBuilt()
      requires Shape()
      reads pUp, pMid, pDown
    {
      forall k :: 0 <= k < g.Width() ==> Triple(pUp[k], pMid[k], pDown[k]) == g.Row(k - g.jMax)
    }

    ghost predicate HasRow(i: nat, row: seq<real>)
      requires Shape() && i <= g.n
      reads Q
    {
      |row| == g.Width() && forall k :: 0 <= k < g.Width() ==> Q[i, k] == row[k]
    }

    /** The state prices and drift adjustments are those of the forward induction. */
    ghost predicate Fitted()
      requires Shape()
      reads Q, alpha
    {
      && (forall i: nat :: i <= g.n ==> HasRow(i, QRow(g, i)))
      && (forall i: nat :: i <= g.n ==> alpha[i] == Shift(g, i))
    }

    constructor (grid: Grid)
      ensures g == grid && Shape() && fresh(pUp) && fresh(pMid) && fresh(pDown) && fresh(alpha) && fresh(Q)
    {
      g := grid;
      pUp := new real[grid.Width()](k => 0.0);
      pMid := new real[grid.Width()](k => 0.0);
      pDown := new real[grid.Width()](k => 0.0);
      alpha := new real[grid.n + 1](k => 0.0);
      Q := new real[grid.n + 1, grid.Width()]((i, k) => 0.0);
    }

    /** Fills the probability arrays; false when a probability is below the tolerance. */
    method BuildProbs() returns (ok: bool)
      requires Shape() && g.Valid()
      modifies pUp, pMid, pDown
      ensures ProbsBuilt()
      ensures ok <==> AllRowsAtLeast(g.Adt(), -0.0000000001)
    {
      ok := true;
      var k := 0;
      while k < g.Width()
        invariant 0 <= k <= g.Width()
        invariant forall l :: 0 <= l < k ==> Triple(pUp[l], pMid[l], pDown[l]) == g.Row(l - g.jMax)
        invariant ok <==> forall j :: 0 - g.jMax <= j < k - g.jMax ==> AtLeast(g.Row(j), -0.0000000001)
      {
        var p := g.Row(k - g.jMax);
        pUp[k], pMid[k], pDown[k] := p.up, p.mid, p.down;
        ok := ok && AtLeast(p, -0.0000000001);
        k := k + 1;
      }
      assert ok <==> AllRowsAtLeast(g.Adt(), -0.0000000001) by {
        hide RowAt, JMax;
        forall j | InGrid(g.jMax, j) ensures g.Row(j) == RowAt(g.Adt(), JMax(g.Adt()), j) {
        }
      }
    }

    method TiltedSum(i: nat) returns (s: real)
      requires Shape() && i < g.n && HasRow(i, QRow(g, i))
      ensures s == BandSum(g, QRow(g, i), g.Lo(i), g.Hi(i) + 1)
    {
      hide RowAt, JMax, Alpha, Tilt, QRow;
      ghost var row := QRow(g, i);
      s := 0.0;
      var j := g.Lo(i);
      while j <= g.Hi(i)
        invariant g.Lo(i) <= j <= g.Hi(i) + 1
        invariant s == BandSum(g, row, g.Lo(i), j)
      {
        assert Q[i, j + g.jMax] == row[j + g.jMax];
        var q := Q[i, j + g.jMax];
        if q != 0.0 {
          s := s + q * Tilt(g, j);
        } else {
          NothingTilted(Tilt(g, j));
        }
        j := j + 1;
      }
    }

    /** Sends every node of step `i` to its destinations in the zeroed row `i + 1`. */
    method RollRow(i: nat, alphaI: real)
      requires Shape() && ProbsBuilt() && i < g.n && HasRow(i, QRow(g, i)) && HasRow(i + 1, Zeros(g))
      modifies Q
      ensures HasRow(i + 1, RollForward(g, alphaI, i, QRow(g, i)))
      ensures forall r, k :: 0 <= r <= g.n && r != i + 1 && 0 <= k < g.Width() ==> Q[r, k] == old(Q[r, k])
    {
      hide RowAt, JMax, Alpha, Decay, Destinations, Scatter;
      ghost var row := QRow(g, i);
      var j := g.Lo(i);
      while j <= g.Hi(i)
        invariant g.Lo(i) <= j <= g.Hi(i) + 1
        invariant HasRow(i + 1, ScatterTo(g, alphaI, row, g.Lo(i), j))
        invariant forall r, k :: 0 <= r <= g.n && r != i + 1 && 0 <= k < g.Width() ==> Q[r, k] == old(Q[r, k])
      {
        assert HasRow(i, row);
        SendNode(i, alphaI, j, row, ScatterTo(g, alphaI, row, g.Lo(i), j));
        j := j + 1;
      }
    }

    /** Sends node `j` of step `i`, unless it holds nothing. */
    method SendNode(i: nat, alphaI: real, j: int, ghost row: seq<real>, ghost acc: seq<real>)
      requires Shape() && ProbsBuilt() && i < g.n && HasRow(i, row) && HasRow(i + 1, acc) && InGrid(g.jMax, j)
      modifies Q
      ensures HasRow(i + 1, Scatter(g, alphaI, row[j + g.jMax], j, acc))
      ensures forall r, k :: 0 <= r <= g.n && r != i + 1 && 0 <= k < g.Width() ==> Q[r, k] == old(Q[r, k])
    {
      hide RowAt, JMax, Alpha, Sent, Decay, Destinations;
      var m, k := g.jMax, j + g.jMax;
      var q := Q[i, k];
      if q == 0.0 {
        ScatterNothing(g, alphaI, j, acc);
        return;
      }
      var d, z := g.Dests(j), g.Discount(alphaI, j);
      assert Triple(pUp[k], pMid[k], pDown[k]) == g.Row(j);
      Q[i + 1, d.up + m] := Q[i + 1, d.up + m] + Sent(q, pUp[k], z);
      Q[i + 1, d.mid + m] := Q[i + 1, d.mid + m] + Sent(q, pMid[k], z);
      Q[i + 1, d.down + m] := Q[i + 1, d.down + m] + Sent(q, pDown[k], z);
    }

    /** The fit meets a positive discount factor and a positive sum at step `i`. */
    ghost predicate FitsAt(i: nat) {
      g.P(i + 1) > 0.0 && BandSum(g, QRow(g, i), g.Lo(i), g.Hi(i) + 1) > 0.0
    }

    ghost predicate Fittable(upTo: nat) {
      forall i: nat :: i < upTo ==> FitsAt(i)
    }

    /** Fits one step and rolls its prices forward. */
    method FitOneStep(i: nat) returns (ok: bool)
      requires Shape() && g.Valid() && ProbsBuilt() && i < g.n
      requires HasRow(i, QRow(g, i)) && HasRow(i + 1, Zeros(g))
      modifies alpha, Q
      ensures ProbsBuilt()
      ensures ok <==> FitsAt(i)
      ensures ok ==> HasRow(i + 1, QRow(g, i + 1)) && alpha[i] == Alpha(g, i)
      ensures forall r, k :: 0 <= r <= g.n && r != i + 1 && 0 <= k < g.Width() ==> Q[r, k] == old(Q[r, k])
      ensures forall r :: 0 <= r <= g.n && r != i ==> alpha[r] == old(alpha[r])
    {
      hide RowAt, JMax, BandSum, RollForward, ExpLn.Valid;
      var next := g.P(i + 1);
      if next <= 0.0 { return false; }
      var s := TiltedSum(i);
      if s <= 0.0 { return false; }
      alpha[i] := AlphaFor(g.E, next, s, g.dt);
      RollRow(i, alpha[i]);
      ok := true;
    }

    /** The forward induction; false when it meets a discount factor or a sum that is not
        positive. */
    method FitAlpha() returns (ok: bool)
      requires Shape() && g.Valid() && ProbsBuilt()
      modifies alpha, Q
      ensures ProbsBuilt()
      ensures ok <==> Fittable(g.n)
      ensures ok ==> Fitted()
    {
      hide RowAt, JMax, Alpha, QRow, FitsAt, ExpLn.Valid;
      forall i, k | 0 <= i <= g.n && 0 <= k < g.Width() { Q[i, k] := 0.0; }
      forall i | 0 <= i <= g.n { alpha[i] := 0.0; }
      Q[0, g.jMax] := 1.0;
      assert HasRow(0, QRow(g, 0)) by { FirstRow(g); }
      var i: nat := 0;
      while i < g.n
        invariant i <= g.n && ProbsBuilt() && Fittable(i)
        invariant forall r: nat :: r <= i ==> HasRow(r, QRow(g, r))
        invariant forall r: nat :: i < r <= g.n ==> HasRow(r, Zeros(g))
        invariant forall r: nat :: r < i ==> alpha[r] == Alpha(g, r)
        invariant alpha[g.n] == 0.0
      {
        label before:
        ok := FitOneStep(i);
        if !ok { return; }
        forall r: nat | r <= i ensures HasRow(r, QRow(g, r)) {
          assert old@before(HasRow(r, QRow(g, r)));
        }
        forall r: nat | i + 1 < r <= g.n ensures HasRow(r, Zeros(g)) {
          assert old@before(HasRow(r, Zeros(g)));
        }
        i := i + 1;
      }
      ok := true;
    }

    /** The largest relative error of the fitted tree against the market curve. */
    method DiscountCurveCheck() returns (maxErr: real)
      requires Shape() && Fitted()
      ensures maxErr >= 0.0
      ensures forall i: nat :: i <= g.n ==> RelativeError(Total(g, QRow(g, i)), g.P(i)) <= maxErr
      ensures exists i: nat :: i <= g.n && RelativeError(Total(g, QRow(g, i)), g.P(i)) == maxErr
      ensures Fits(g) ==> maxErr == 0.0
    {
      hide RowAt, JMax, Alpha, RollForward, ExpLn.Valid, Fits, QRow, Total, RelativeError;
      maxErr := 0.0;
      var i: nat := 0;
      while i <= g.n
        invariant i <= g.n + 1 && maxErr >= 0.0
        invariant forall r: nat :: r < i ==> RelativeError(Total(g, QRow(g, r)), g.P(r)) <= maxErr
        invariant if i == 0 then maxErr == 0.0 else exists r: nat :: r < i && RelativeError(Total(g, QRow(g, r)), g.P(r)) == maxErr
        invariant Fits(g) ==> maxErr == 0.0
      {
        assert HasRow(i, QRow(g, i));
        var total := SumRow(i);
        if Fits(g) { FitIsExact(g, i); }
        var err := RelativeError(total, g.P(i));
        maxErr := Max(maxErr, err);
        i := i + 1;
      }
    }

    method SumRow(i: nat) returns (total: real)
      requires Shape() && i <= g.n && HasRow(i, QRow(g, i))
      ensures total == Total(g, QRow(g, i))
    {
      hide RowAt, JMax, Alpha, RollForward;
      total := 0.0;
      var k := 0;
      while k < g.Width()
        invariant 0 <= k <= g.Width()
        invariant total == Inner(QRow(g, i), Ones(g), k)
      {
        assert Ones(g)[k] == 1.0;
        total := total + Q[i, k];
        k := k + 1;
      }
    }
  }

  // ----- the step that is never fitted -----

  /** What the stored drift adjustment of step `i` makes of a payment of one a step later,
      weighed by the state prices of step `i`. */
  function OneStepBond(g: Grid, i: nat): real {
    Inner(QRow(g, i), RollBack(g, Shift(g, i), i, Ones(g)), g.Width())
  }

  /** The short rates of a step reprice the next discount factor exactly when the step was
      fitted, or its fit would have been zero: those of the last step in general do not. */
  lemma StepRepricesIff(g: Grid, i: nat)
    requires Fits(g) && i <= g.n && g.P(i + 1) > 0.0
    ensures OneStepBond(g, i) == g.P(i + 1) <==> i < g.n || Alpha(g, i) == 0.0
  {
    hide RowAt, JMax, Destinations, RollBack, Inner, BandSum, FittedAlpha, ExpLn.Valid, QRow, Decay;
    var row, s := QRow(g, i), BandSum(g, QRow(g, i), g.Lo(i), g.Hi(i) + 1);
    CurveFit(g, i);
    InnerIsScaledBandSum(g, Shift(g, i), i, row, g.Hi(i) + 1);
    InnerBeyond(row, RollBack(g, Shift(g, i), i, Ones(g)), g.Hi(i) + 1 + g.jMax, g.Width());
    FittedScale(g, i, row);
    assert Alpha(g, i) == FittedAlpha(g, i, row);
    SameDiscountIff(g.E, Shift(g, i), Alpha(g, i), g.dt, s);
  }

  /** The bond of the last step is the unshifted one, whatever the market quotes beyond it. */
  lemma LastStepIsUnshifted(g: Grid)
    requires Fits(g)
    ensures OneStepBond(g, g.n) == BandSum(g, QRow(g, g.n), g.Lo(g.n), g.Hi(g.n) + 1)
  {
    hide RowAt, JMax, Destinations, RollBack, Inner, BandSum, ExpLn.Valid, QRow;
    var i, row := g.n, QRow(g, g.n);
    CurveFit(g, i);
    InnerIsScaledBandSum(g, 0.0, i, row, g.Hi(i) + 1);
    InnerBeyond(row, RollBack(g, 0.0, i, Ones(g)), g.Hi(i) + 1 + g.jMax, g.Width());
    NoRateNoDiscount(g.E, g.dt);
  }

  lemma NoRateNoDiscount(E: ExpLn, dt: real)
    requires E.Valid()
    ensures E.exp(Decay(0.0, dt)) == 1.0
  {
  }

  /** A grid of no steps over a market that discounts the first one. */
  function BareGrid(E: ExpLn, a: real, dt: real, dx: real, p: real): Grid {
    Grid(a, dt, dx, JMax(a * dt), 0, E, i => if i == 0 then 1.0 else p)
  }

  /** There the tree pays one for a bond the market sells below one. */
  lemma BareGridMisprices(E: ExpLn, a: real, dt: real, dx: real, p: real)
    requires E.Valid() && a > 0.0 && dt > 0.0 && a * dt > 0.000000000001 && 6.0 * (a * dt) * (a * dt) <= 1.0
    requires 0.0 < p < 1.0
    ensures var g := BareGrid(E, a, dt, dx, p); Fits(g) && OneStepBond(g, 0) == 1.0 && g.P(1) == p
  {
    hide RowAt, JMax, RollBack, Inner, OneStepBond;
    var g := BareGrid(E, a, dt, dx, p);
    assert g.Adt() == a * dt && g.jMax == JMax(a * dt);
    ProbableIff(g);
    LastStepIsUnshifted(g);
    StartBand(g);
  }

  lemma StartBand(g: Grid)
    requires g.E.Valid()
    ensures BandSum(g, QRow(g, 0), g.Lo(0), g.Hi(0) + 1) == 1.0
  {
    hide JMax, RowAt;
    assert QRow(g, 0)[g.jMax] == 1.0;
    NothingTilted(g.dt);
    assert g.X(0) == 0.0 by { NothingTilted(g.dx); }
    NoRateNoDiscount(g.E, g.dt);
  }

  lemma SameDiscountIff(E: ExpLn, a: real, b: real, dt: real, s: real)
    requires E.Valid() && dt > 0.0 && s > 0.0
    ensures E.exp(Decay(a, dt)) * s == E.exp(Decay(b, dt)) * s <==> a == b
  {
    var x, y := E.exp(Decay(a, dt)), E.exp(Decay(b, dt));
    SameDecayIff(a, b, dt);
    assert E.ln(x) == Decay(a, dt) && E.ln(y) == Decay(b, dt);
    hide Decay, ExpLn.Valid;
    CancelFactor(x, y, s);
  }

  lemma SameDecayIff(a: real, b: real, dt: real)
    requires dt != 0.0
    ensures Decay(a, dt) == Decay(b, dt) <==> a == b
  {
    CancelFactor(-a, -b, dt);
  }

  lemma CancelFactor(x: real, y: real, s: real)
    requires s != 0.0
    ensures x * s == y * s <==> x == y
  {
    if x * s == y * s {
      FactorOut(x, s);
      FactorOut(y, s);
    }
  }

  lemma FactorOut(x: real, s: real)
    requires s != 0.0
    ensures (x * s) / s == x
  {
  }

  lemma FirstRow(g: Grid)
    ensures QRow(g, 0) == Start(g)
  {
  }

  lemma NothingTilted(t: real)
    ensures 0.0 * t == 0.0
  {
  }

  lemma ScatterNothing(g: Grid, alpha: real, j: int, acc: seq<real>)
    requires |acc| == g.Width() && InGrid(g.jMax, j)
    ensures Scatter(g, alpha, 0.0, j, acc) == acc
  {
  }

  function Abs(x: real): real {
    if x < 0.0 then -x else x
  }

  function RelativeError(tree: real, market: real): (e: real)
    ensures e >= 0.0
  {
    var scale := Max(Abs(market), 0.000000000001);
    QuotientSign(Abs(tree - market), scale);
    Abs(tree - market) / scale
  }

  /** The relative error is the difference as a share of the market value, which counts as
      1e-12 when it is smaller. */
  lemma RelativeErrorScales(tree: real, market: real)
    ensures var share := if -0.000000000001 < market < 0.000000000001 then 0.000000000001 else Abs(market);
            RelativeError(tree, market) * share == Abs(tree - market)
  {
    var share := if -0.000000000001 < market < 0.000000000001 then 0.000000000001 else Abs(market);
    assert share > 0.0;
    Rescaled(Abs(tree - market), share);
  }

  lemma Rescaled(x: real, d: real)
    requires d > 0.0
    ensures (x / d) * d == x
  {
  }

  lemma QuotientSign(x: real, y: real)
    requires x >= 0.0 && y > 0.0
    ensures x / y >= 0.0 && (x == 0.0 ==> x / y == 0.0)
  {
  }

  /** A fitted step has no repricing error. */
  lemma FitIsExact(g: Grid, i: nat)
    requires Fits(g) && i <= g.n
    ensures RelativeError(Total(g, QRow(g, i)), g.P(i)) == 0.0
  {
    hide RowAt, JMax, QRow, Total, RelativeError, Fits;
    CurveFit(g, i);
    ExactRepricing(g.P(i));
  }

  lemma ExactRepricing(p: real)
    ensures RelativeError(p, p) == 0.0
  {
  }
}
