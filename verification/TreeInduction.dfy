/** The two inductions on the Hull-White tree: Arrow-Debreu prices rolled forward and
    option values rolled backward, and what each says about the other. */
module TreeInduction {
  import opened Reals
  import opened TreeProbabilities

  type Boundary = j: int | j >= 3 witness 3

  /** Mean reversion, time step, space step, boundary index, number of steps, and the
      market discount factor at each step. */
  datatype Grid = Grid(a: real, dt: real, dx: real, jMax: Boundary, n: nat, E: ExpLn, P: nat -> real)
  {
    ghost predicate Valid() {
      a > 0.0 && dt > 0.0 && E.Valid() && jMax == JMax(Adt())
    }

    function Adt(): real {
      a * dt
    }

    function Width(): nat {
      2 * jMax + 1
    }

    function Row(j: int): Triple<real> {
      RowAt(Adt(), jMax, j)
    }

    function Dests(j: int): (d: Triple<int>)
      requires InGrid(jMax, j)
      ensures InGrid(jMax, d.up) && InGrid(jMax, d.mid) && InGrid(jMax, d.down)
      ensures d.up == d.mid + 1 && d.mid == d.down + 1
    {
      Destinations(jMax, j)
    }

    /** The nodes reachable after `i` steps. */
    function Lo(i: nat): int {
      if i <= jMax then 0 - i else 0 - jMax
    }

    function Hi(i: nat): int {
      if i <= jMax then i else jMax
    }

    function X(j: int): real {
      j as real * dx
    }

    function ShortRate(alpha: real, j: int): real {
      alpha + X(j)
    }

    function Discount(alpha: real, j: int): real {
      E.exp(Decay(ShortRate(alpha, j), dt))
    }
  }

  /** The log of discounting at rate `r` over `t`. */
  function Decay(r: real, t: real): real {
    -r * t
  }

  /** The amount `q` arriving with probability `p`, discounted by `z`. */
  function Sent(q: real, p: real, z: real): real {
    q * p * z
  }

  function Zeros(g: Grid): (v: seq<real>)
    ensures |v| == g.Width()
  {
    seq(g.Width(), k => 0.0)
  }

  // ----- rolling backward -----

  /** The expected discounted value at node `j` of the values `v` one step later. */
  function BackNode(g: Grid, alpha: real, v: seq<real>, j: int): real
    requires |v| == g.Width() && InGrid(g.jMax, j)
  {
    var p, d, m := g.Row(j), g.Dests(j), g.jMax;
    Weighted(p, v[d.up + m], v[d.mid + m], v[d.down + m], g.Discount(alpha, j))
  }

  function Weighted(p: Triple<real>, x: real, y: real, w: real, z: real): real {
    (p.up * x + p.mid * y + p.down * w) * z
  }

  function RollBack(g: Grid, alpha: real, i: nat, v: seq<real>): (u: seq<real>)
    requires |v| == g.Width()
    ensures |u| == g.Width()
  {
    seq(g.Width(), k requires 0 <= k < g.Width() =>
      if g.Lo(i) <= k - g.jMax <= g.Hi(i) then BackNode(g, alpha, v, k - g.jMax) else 0.0)
  }

  // ----- rolling forward -----

  function AddTo(acc: seq<real>, k: int, x: real): (r: seq<real>)
    requires 0 <= k < |acc|
    ensures |r| == |acc|
  {
    acc[k := acc[k] + x]
  }

  /** Node `j`, holding `q`, sent to its three destinations. */
  function Scatter(g: Grid, alpha: real, q: real, j: int, acc: seq<real>): (r: seq<real>)
    requires |acc| == g.Width() && InGrid(g.jMax, j)
    ensures |r| == g.Width()
  {
    var p, d, m := g.Row(j), g.Dests(j), g.jMax;
    var z := g.Discount(alpha, j);
    AddTo(AddTo(AddTo(acc, d.up + m, Sent(q, p.up, z)), d.mid + m, Sent(q, p.mid, z)), d.down + m, Sent(q, p.down, z))
  }

  function ScatterTo(g: Grid, alpha: real, row: seq<real>, lo: int, hi: int): (r: seq<real>)
    requires |row| == g.Width() && 0 - g.jMax <= lo && hi <= g.jMax + 1
    ensures |r| == g.Width()
    decreases hi - lo
  {
    if hi <= lo then Zeros(g)
    else Scatter(g, alpha, row[hi - 1 + g.jMax], hi - 1, ScatterTo(g, alpha, row, lo, hi - 1))
  }

  function RollForward(g: Grid, alpha: real, i: nat, row: seq<real>): (r: seq<real>)
    requires |row| == g.Width()
    ensures |r| == g.Width()
  {
    ScatterTo(g, alpha, row, g.Lo(i), g.Hi(i) + 1)
  }

  /** `exp(-j * dx * dt)`. */
  function Tilt(g: Grid, j: int): real {
    g.E.exp(Decay(g.X(j), g.dt))
  }

  function BandSum(g: Grid, row: seq<real>, lo: int, hi: int): real
    requires |row| == g.Width() && 0 - g.jMax <= lo && hi <= g.jMax + 1
    decreases hi - lo
  {
    if hi <= lo then 0.0
    else BandSum(g, row, lo, hi - 1) + row[hi - 1 + g.jMax] * Tilt(g, hi - 1)
  }

  /** The drift adjustment that reprices the next discount factor. */
  function FittedAlpha(g: Grid, i: nat, row: seq<real>): real
    requires |row| == g.Width() && g.dt != 0.0 && BandSum(g, row, g.Lo(i), g.Hi(i) + 1) != 0.0
  {
    AlphaFor(g.E, g.P(i + 1), BandSum(g, row, g.Lo(i), g.Hi(i) + 1), g.dt)
  }

  function AlphaFor(E: ExpLn, next: real, s: real, dt: real): real
    requires s != 0.0 && dt != 0.0
  {
    -E.ln(next / s) / dt
  }

  function Start(g: Grid): (r: seq<real>)
    ensures |r| == g.Width()
  {
    Zeros(g)[g.jMax := 1.0]
  }

  /** The Arrow-Debreu prices of step `i`, and the drift adjustment fitted there, zero where
      the fit would divide by zero. */
  function QRow(g: Grid, i: nat): (r: seq<real>)
    ensures |r| == g.Width()
    decreases i, 1
  {
    if i == 0 then Start(g) else RollForward(g, Alpha(g, i - 1), i - 1, QRow(g, i - 1))
  }

  function Alpha(g: Grid, i: nat): real
    decreases i, 2
  {
    var row := QRow(g, i);
    if g.dt != 0.0 && BandSum(g, row, g.Lo(i), g.Hi(i) + 1) != 0.0 then FittedAlpha(g, i, row) else 0.0
  }

  // ----- the inner product -----

  function Inner(a: seq<real>, b: seq<real>, n: nat): real
    requires n <= |a| && n <= |b|
  {
    if n == 0 then 0.0 else Inner(a, b, n - 1) + a[n - 1] * b[n - 1]
  }

  lemma {:induction false} InnerOfAdd(a: seq<real>, b: seq<real>, n: nat, k: nat, x: real)
    requires n <= |a| && n <= |b| && k < |a| && k < |b|
    ensures Inner(AddTo(a, k, x), b, n) == Inner(a, b, n) + (if k < n then x * b[k] else 0.0)
  {
    if n > 0 {
      InnerOfAdd(a, b, n - 1, k, x);
      if k == n - 1 { assert (a[k] + x) * b[k] == a[k] * b[k] + x * b[k]; }
    }
  }

  lemma Collect(q: real, p: Triple<real>, z: real, x: real, y: real, w: real, a: real, b: real, c: real)
    requires a == Sent(q, p.up, z) && b == Sent(q, p.mid, z) && c == Sent(q, p.down, z)
    ensures a * x + b * y + c * w == q * Weighted(p, x, y, w, z)
  {
  }

  lemma InnerOfScatter(g: Grid, alpha: real, q: real, j: int, acc: seq<real>, v: seq<real>)
    requires |acc| == g.Width() && |v| == g.Width() && InGrid(g.jMax, j)
    ensures Inner(Scatter(g, alpha, q, j, acc), v, g.Width()) == Inner(acc, v, g.Width()) + q * BackNode(g, alpha, v, j)
  {
    hide Inner, RowAt, JMax, Destinations, Weighted, Sent;
    var p, d, m := g.Row(j), g.Dests(j), g.jMax;
    var z := g.Discount(alpha, j);
    var a, b, c := Sent(q, p.up, z), Sent(q, p.mid, z), Sent(q, p.down, z);
    var a1 := AddTo(acc, d.up + m, a);
    var a2 := AddTo(a1, d.mid + m, b);
    InnerOfAdd(acc, v, g.Width(), d.up + m, a);
    InnerOfAdd(a1, v, g.Width(), d.mid + m, b);
    InnerOfAdd(a2, v, g.Width(), d.down + m, c);
    Collect(q, p, z, v[d.up + m], v[d.mid + m], v[d.down + m], a, b, c);
    assert Scatter(g, alpha, q, j, acc) == AddTo(a2, d.down + m, c);
  }

  lemma {:induction false} InnerOfZeros(a: seq<real>, b: seq<real>, n: nat)
    requires n <= |a| && n <= |b| && forall k :: 0 <= k < n ==> a[k] == 0.0 || b[k] == 0.0
    ensures Inner(a, b, n) == 0.0
  {
    if n > 0 {
      InnerOfZeros(a, b, n - 1);
      assert a[n - 1] * b[n - 1] == 0.0;
    }
  }

  /** No price outside the reachable band. */
  ghost predicate InBand(g: Grid, i: nat, row: seq<real>)
    requires |row| == g.Width()
  {
    forall k :: 0 <= k < g.Width() && !(g.Lo(i) <= k - g.jMax <= g.Hi(i)) ==> row[k] == 0.0
  }

  /** Both sides are the sum of `row * BackNode` over the nodes below `hi`. */
  lemma {:induction false} PartialDuality(g: Grid, alpha: real, i: nat, row: seq<real>, v: seq<real>, hi: int)
    requires |row| == g.Width() && |v| == g.Width() && InBand(g, i, row)
    requires g.Lo(i) <= hi <= g.Hi(i) + 1
    ensures Inner(ScatterTo(g, alpha, row, g.Lo(i), hi), v, g.Width())
         == Inner(row, RollBack(g, alpha, i, v), hi + g.jMax)
    decreases hi - g.Lo(i)
  {
    hide RowAt, JMax, Destinations, BackNode, Scatter;
    if hi == g.Lo(i) {
      InnerOfZeros(Zeros(g), v, g.Width());
      InnerOfZeros(row, RollBack(g, alpha, i, v), hi + g.jMax);
    } else {
      PartialDuality(g, alpha, i, row, v, hi - 1);
      var u := RollBack(g, alpha, i, v);
      assert u[hi - 1 + g.jMax] == BackNode(g, alpha, v, hi - 1);
      hide RollBack;
      InnerOfScatter(g, alpha, row[hi - 1 + g.jMax], hi - 1, ScatterTo(g, alpha, row, g.Lo(i), hi - 1), v);
      assert Inner(row, u, hi + g.jMax) == Inner(row, u, hi - 1 + g.jMax) + row[hi - 1 + g.jMax] * u[hi - 1 + g.jMax];
    }
  }

  lemma {:induction false} InnerBeyond(a: seq<real>, b: seq<real>, m: nat, n: nat)
    requires m <= n <= |a| && n <= |b| && forall k :: m <= k < n ==> a[k] == 0.0
    ensures Inner(a, b, n) == Inner(a, b, m)
    decreases n
  {
    if m < n {
      InnerBeyond(a, b, m, n - 1);
      assert a[n - 1] * b[n - 1] == 0.0;
    }
  }

  /** One step of the duality: pricing the rolled-forward state prices against `v` is
      pricing today's state prices against the rolled-back `v`. */
  lemma StepDuality(g: Grid, alpha: real, i: nat, row: seq<real>, v: seq<real>)
    requires |row| == g.Width() && |v| == g.Width() && InBand(g, i, row)
    ensures Inner(RollForward(g, alpha, i, row), v, g.Width()) == Inner(row, RollBack(g, alpha, i, v), g.Width())
  {
    hide RowAt, JMax, Destinations, BackNode, RollBack, Inner, ScatterTo;
    PartialDuality(g, alpha, i, row, v, g.Hi(i) + 1);
    InnerBeyond(row, RollBack(g, alpha, i, v), g.Hi(i) + 1 + g.jMax, g.Width());
  }

  // ----- the reachable band -----

  lemma DestsStayInBand(g: Grid, i: nat, j: int)
    requires g.Lo(i) <= j <= g.Hi(i)
    ensures InGrid(g.jMax, j)
    ensures var d := g.Dests(j); g.Lo(i + 1) <= d.down && d.up <= g.Hi(i + 1)
  {
  }

  lemma {:induction false} ScatterStaysInBand(g: Grid, alpha: real, i: nat, row: seq<real>, hi: int)
    requires |row| == g.Width() && g.Lo(i) <= hi <= g.Hi(i) + 1
    ensures InBand(g, i + 1, ScatterTo(g, alpha, row, g.Lo(i), hi))
    decreases hi - g.Lo(i)
  {
    hide RowAt, JMax, Destinations;
    if hi > g.Lo(i) {
      ScatterStaysInBand(g, alpha, i, row, hi - 1);
      DestsStayInBand(g, i, hi - 1);
    }
  }

  lemma {:induction false} QInBand(g: Grid, i: nat)
    ensures InBand(g, i, QRow(g, i))
  {
    hide RowAt, JMax, Destinations, ScatterTo, Alpha;
    if i > 0 {
      ScatterStaysInBand(g, Alpha(g, i - 1), i - 1, QRow(g, i - 1), g.Hi(i - 1) + 1);
    }
  }

  // ----- the curve fit -----

  function Ones(g: Grid): (v: seq<real>)
    ensures |v| == g.Width()
  {
    seq(g.Width(), k => 1.0)
  }

  /** `sum(Q[i])`. */
  function Total(g: Grid, row: seq<real>): real
    requires |row| == g.Width()
  {
    Inner(row, Ones(g), g.Width())
  }

  lemma DiscountFactors(g: Grid, alpha: real, j: int)
    requires g.Valid()
    ensures g.Discount(alpha, j) == g.E.exp(Decay(alpha, g.dt)) * Tilt(g, j)
  {
    hide JMax, ExpLn.Valid, Decay, Grid.X;
    DecayOfSum(alpha, g.X(j), g.dt);
    ExpOfSum(g.E, Decay(alpha, g.dt), Decay(g.X(j), g.dt));
  }

  lemma DecayOfSum(x: real, y: real, t: real)
    ensures Decay(x + y, t) == Decay(x, t) + Decay(y, t)
  {
  }

  lemma ExpOfSum(E: ExpLn, x: real, y: real)
    requires E.Valid()
    ensures E.exp(x + y) == E.exp(x) * E.exp(y)
  {
    assert E.TurnsSumIntoProduct(x, y);
  }

  lemma RowSumsToOne(g: Grid, j: int)
    requires InGrid(g.jMax, j)
    ensures g.Row(j).up + g.Row(j).mid + g.Row(j).down == 1.0
  {
  }

  lemma WeightedOfOnes(p: Triple<real>, z: real)
    requires p.up + p.mid + p.down == 1.0
    ensures Weighted(p, 1.0, 1.0, 1.0, z) == z
  {
  }

  lemma BackNodeOfOnes(g: Grid, alpha: real, j: int)
    requires g.Valid() && InGrid(g.jMax, j)
    ensures BackNode(g, alpha, Ones(g), j) == g.E.exp(Decay(alpha, g.dt)) * Tilt(g, j)
  {
    hide RowAt, JMax, Destinations, ExpLn.Valid, Weighted, Tilt;
    RowSumsToOne(g, j);
    DiscountFactors(g, alpha, j);
    WeightedOfOnes(g.Row(j), g.Discount(alpha, j));
  }

  lemma {:induction false} InnerIsScaledBandSum(g: Grid, alpha: real, i: nat, row: seq<real>, hi: int)
    requires g.Valid() && |row| == g.Width() && InBand(g, i, row) && g.Lo(i) <= hi <= g.Hi(i) + 1
    ensures Inner(row, RollBack(g, alpha, i, Ones(g)), hi + g.jMax)
         == g.E.exp(Decay(alpha, g.dt)) * BandSum(g, row, g.Lo(i), hi)
    decreases hi - g.Lo(i)
  {
    hide RowAt, JMax, Destinations, BackNode, Tilt, ExpLn.Valid;
    var z := g.E.exp(Decay(alpha, g.dt));
    if hi == g.Lo(i) {
      InnerOfZeros(row, RollBack(g, alpha, i, Ones(g)), hi + g.jMax);
    } else {
      InnerIsScaledBandSum(g, alpha, i, row, hi - 1);
      BackNodeOfOnes(g, alpha, hi - 1);
      var q, t, b := row[hi - 1 + g.jMax], Tilt(g, hi - 1), BandSum(g, row, g.Lo(i), hi - 1);
      assert RollBack(g, alpha, i, Ones(g))[hi - 1 + g.jMax] == z * t;
      assert z * b + q * (z * t) == z * (b + q * t);
    }
  }

  lemma FittedScale(g: Grid, i: nat, row: seq<real>)
    requires g.Valid() && |row| == g.Width()
    requires BandSum(g, row, g.Lo(i), g.Hi(i) + 1) > 0.0 && g.P(i + 1) > 0.0
    ensures g.E.exp(Decay(FittedAlpha(g, i, row), g.dt)) * BandSum(g, row, g.Lo(i), g.Hi(i) + 1) == g.P(i + 1)
  {
    hide BandSum, JMax, ExpLn.Valid;
    AlphaSolves(g.E, g.P(i + 1), BandSum(g, row, g.Lo(i), g.Hi(i) + 1), g.dt);
  }

  lemma AlphaSolves(E: ExpLn, next: real, s: real, dt: real)
    requires E.Valid() && next > 0.0 && s > 0.0 && dt > 0.0
    ensures E.exp(Decay(AlphaFor(E, next, s, dt), dt)) * s == next
  {
  }

  /** Fitting step `i` makes the next row add up to the market discount factor. */
  lemma FitStep(g: Grid, i: nat, row: seq<real>)
    requires g.Valid() && |row| == g.Width() && InBand(g, i, row)
    requires BandSum(g, row, g.Lo(i), g.Hi(i) + 1) > 0.0 && g.P(i + 1) > 0.0
    ensures Total(g, RollForward(g, FittedAlpha(g, i, row), i, row)) == g.P(i + 1)
  {
    hide RowAt, JMax, Destinations, BackNode, Tilt, ExpLn.Valid, RollForward, RollBack, Inner, BandSum, FittedAlpha;
    var alpha := FittedAlpha(g, i, row);
    var scale, s := g.E.exp(Decay(alpha, g.dt)), BandSum(g, row, g.Lo(i), g.Hi(i) + 1);
    assert scale * s == g.P(i + 1) by { FittedScale(g, i, row); }
    StepDuality(g, alpha, i, row, Ones(g));
    InnerIsScaledBandSum(g, alpha, i, row, g.Hi(i) + 1);
    InnerBeyond(row, RollBack(g, alpha, i, Ones(g)), g.Hi(i) + 1 + g.jMax, g.Width());
  }

  ghost predicate NonNegative(v: seq<real>) {
    forall k :: 0 <= k < |v| ==> v[k] >= 0.0
  }

  /** Every row of the grid is made of probabilities. */
  ghost predicate Probable(g: Grid) {
    forall j :: InGrid(g.jMax, j) ==> AtLeast(g.Row(j), 0.0)
  }

  lemma ProbableIff(g: Grid)
    requires g.Valid()
    ensures var adt := g.Adt(); Probable(g) <==> adt > 0.000000000001 && 6.0 * adt * adt <= 1.0
  {
    hide JMax, RowAt, ExpLn.Valid;
    var adt := g.Adt();
    ProductIsPositive(g.a, g.dt);
    ProbabilitiesIff(adt);
    assert AllRowsAtLeast(adt, 0.0) <==> Probable(g) by { ProbableIsAllRows(g, adt); }
  }

  lemma ProbableIsAllRows(g: Grid, adt: real)
    requires adt == g.Adt() && g.jMax == JMax(adt)
    ensures AllRowsAtLeast(adt, 0.0) <==> Probable(g)
  {
    hide JMax, RowAt;
    forall j | InGrid(g.jMax, j) ensures g.Row(j) == RowAt(adt, JMax(adt), j) {
    }
  }

  lemma ProductIsPositive(x: real, y: real)
    requires x > 0.0 && y > 0.0
    ensures x * y > 0.0
  {
  }

  lemma ScatterOneNonNegative(g: Grid, alpha: real, q: real, j: int, acc: seq<real>)
    requires g.E.Valid() && AtLeast(g.Row(j), 0.0) && q >= 0.0
    requires |acc| == g.Width() && NonNegative(acc) && InGrid(g.jMax, j)
    ensures NonNegative(Scatter(g, alpha, q, j, acc))
  {
    var p, z := g.Row(j), g.Discount(alpha, j);
    assert z > 0.0;
    hide RowAt, JMax, Destinations, ExpLn.Valid, Sent, Decay;
    NonNegativeProduct(q, p.up, z);
    NonNegativeProduct(q, p.mid, z);
    NonNegativeProduct(q, p.down, z);
  }

  lemma {:induction false} ScatterNonNegative(g: Grid, alpha: real, row: seq<real>, lo: int, hi: int)
    requires g.E.Valid() && Probable(g)
    requires |row| == g.Width() && NonNegative(row) && 0 - g.jMax <= lo && hi <= g.jMax + 1
    ensures NonNegative(ScatterTo(g, alpha, row, lo, hi))
    decreases hi - lo
  {
    hide RowAt, JMax, Destinations, ExpLn.Valid, Scatter;
    if hi > lo {
      ScatterNonNegative(g, alpha, row, lo, hi - 1);
      ScatterOneNonNegative(g, alpha, row[hi - 1 + g.jMax], hi - 1, ScatterTo(g, alpha, row, lo, hi - 1));
    }
  }

  lemma NonNegativeProduct(x: real, y: real, z: real)
    requires x >= 0.0 && y >= 0.0 && z >= 0.0
    ensures Sent(x, y, z) >= 0.0
  {
  }

  lemma {:induction false} BandSumNonNegative(g: Grid, row: seq<real>, lo: int, hi: int)
    requires g.Valid() && |row| == g.Width() && NonNegative(row) && 0 - g.jMax <= lo && hi <= g.jMax + 1
    ensures BandSum(g, row, lo, hi) >= 0.0
    ensures BandSum(g, row, lo, hi) == 0.0 ==> forall k :: lo + g.jMax <= k < hi + g.jMax ==> row[k] == 0.0
    decreases hi - lo
  {
    hide Tilt, ExpLn.Valid, JMax;
    if hi > lo {
      BandSumNonNegative(g, row, lo, hi - 1);
      TiltedSign(g, row[hi - 1 + g.jMax], hi - 1);
    }
  }

  lemma TiltedSign(g: Grid, q: real, j: int)
    requires g.E.Valid() && q >= 0.0
    ensures q * Tilt(g, j) >= 0.0 && (q * Tilt(g, j) == 0.0 ==> q == 0.0)
  {
  }

  /** A non-negative row in the band with a positive total has a positive tilted sum. */
  lemma BandSumPositive(g: Grid, i: nat, row: seq<real>)
    requires g.Valid() && |row| == g.Width() && NonNegative(row) && InBand(g, i, row) && Total(g, row) > 0.0
    ensures BandSum(g, row, g.Lo(i), g.Hi(i) + 1) > 0.0
  {
    hide Tilt, ExpLn.Valid, JMax;
    BandSumNonNegative(g, row, g.Lo(i), g.Hi(i) + 1);
    if BandSum(g, row, g.Lo(i), g.Hi(i) + 1) == 0.0 {
      forall k | 0 <= k < g.Width() ensures row[k] == 0.0 {
        if g.Lo(i) <= k - g.jMax <= g.Hi(i) { assert g.Lo(i) + g.jMax <= k < g.Hi(i) + 1 + g.jMax; }
      }
      InnerOfZeros(row, Ones(g), g.Width());
    }
  }

  /** A market whose discount factors start at 1 and stay positive, on a grid whose
      transition rows are probabilities. */
  ghost predicate Fits(g: Grid) {
    g.Valid() && Probable(g) && g.P(0) == 1.0 && forall i: nat :: i <= g.n ==> g.P(i) > 0.0
  }

  lemma StartTotals(g: Grid)
    ensures Total(g, Start(g)) == 1.0 && NonNegative(Start(g)) && InBand(g, 0, Start(g))
  {
    assert Start(g) == AddTo(Zeros(g), g.jMax, 1.0);
    InnerOfAdd(Zeros(g), Ones(g), g.Width(), g.jMax, 1.0);
    InnerOfZeros(Zeros(g), Ones(g), g.Width());
  }

  /** The tree reprices the market curve at every step: the state prices are
      non-negative, live in the reachable band, and add up to the discount factor; and
      the sum the fit divides by is positive. */
  lemma {:induction false} CurveFit(g: Grid, i: nat)
    requires Fits(g) && i <= g.n
    ensures Total(g, QRow(g, i)) == g.P(i)
    ensures NonNegative(QRow(g, i)) && InBand(g, i, QRow(g, i))
    ensures BandSum(g, QRow(g, i), g.Lo(i), g.Hi(i) + 1) > 0.0
  {
    hide JMax, RowAt, Destinations, Tilt, ExpLn.Valid, ScatterTo, BandSum, Inner, Probable;
    if i == 0 {
      StartTotals(g);
    } else {
      CurveFit(g, i - 1);
      var row := QRow(g, i - 1);
      FitStep(g, i - 1, row);
      ScatterNonNegative(g, Alpha(g, i - 1), row, g.Lo(i - 1), g.Hi(i - 1) + 1);
      QInBand(g, i);
    }
    BandSumPositive(g, i, QRow(g, i));
  }

  // ----- rates and discounting -----

  /** A unit discounted over a step and invested at the node's rate is a unit again. */
  lemma DiscountUndoesTheRate(g: Grid, alpha: real, j: int)
    requires g.E.Valid()
    ensures g.Discount(alpha, j) * g.E.exp((alpha + j as real * g.dx) * g.dt) == 1.0
  {
    hide ExpLn.Valid;
    OppositeDecay(alpha + j as real * g.dx, g.dt);
    ExpOfOpposites(g.E, Decay(g.ShortRate(alpha, j), g.dt), (alpha + j as real * g.dx) * g.dt);
  }

  lemma OppositeDecay(r: real, t: real)
    ensures Decay(r, t) + r * t == 0.0
  {
  }

  lemma ExpOfOpposites(E: ExpLn, x: real, y: real)
    requires E.Valid() && x + y == 0.0
    ensures E.exp(x) * E.exp(y) == 1.0
  {
    ExpOfSum(E, x, y);
  }

  /** The rate rises with the node, by one space step, and the discount factor falls. */
  lemma HigherNodesDiscountMore(g: Grid, alpha: real, j: int)
    requires g.E.Valid() && g.dx > 0.0 && g.dt > 0.0
    ensures g.ShortRate(alpha, j + 1) == g.ShortRate(alpha, j) + g.dx && g.ShortRate(alpha, 0) == alpha
    ensures g.Discount(alpha, j + 1) < g.Discount(alpha, j)
  {
    var r := g.ShortRate(alpha, j);
    assert (j + 1) as real * g.dx == j as real * g.dx + g.dx;
    ProductIsPositive(g.dx, g.dt);
    assert Decay(r + g.dx, g.dt) == Decay(r, g.dt) - g.dx * g.dt;
  }
}
