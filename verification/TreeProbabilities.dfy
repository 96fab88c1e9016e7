/** The transition probabilities of the Hull-White trinomial tree: three branchings,
    their moments, and exactly when all of them are probabilities. */
module TreeProbabilities {

  function Ceil(x: real): int {
    -((-x).Floor)
  }

  /** The boundary index, from `a * dt`. */
  function JMax(adt: real): (j: nat)
    ensures j >= 3
  {
    if adt > 0.000000000001 then
      var c := Ceil(0.184 / adt);
      if c > 3 then c else 3
    else 50
  }

  datatype Branch = Down | Standard | Up

  function BranchAt(jMax: int, j: int): Branch {
    if j == jMax then Down else if j == -jMax then Up else Standard
  }

  /** The first, second and third destination of node `j`. */
  datatype Triple<T> = Triple(up: T, mid: T, down: T)

  function Destinations(jMax: int, j: int): Triple<int> {
    match BranchAt(jMax, j)
    case Down => Triple(jMax, jMax - 1, jMax - 2)
    case Up => Triple(-jMax + 2, -jMax + 1, -jMax)
    case Standard => Triple(j + 1, j, j - 1)
  }

  /** The probabilities of a branching at drift `x = j * a * dt`. */
  function Probabilities(b: Branch, x: real): Triple<real> {
    match b
    case Down =>
      Triple(7.0 / 6.0 + (x * x - 3.0 * x) / 2.0, -1.0 / 3.0 - x * x + 2.0 * x, 1.0 / 6.0 + (x * x - x) / 2.0)
    case Up =>
      Triple(1.0 / 6.0 + (x * x + x) / 2.0, -1.0 / 3.0 - x * x - 2.0 * x, 7.0 / 6.0 + (x * x + 3.0 * x) / 2.0)
    case Standard =>
      Triple(1.0 / 6.0 + (x * x - x) / 2.0, 2.0 / 3.0 - x * x, 1.0 / 6.0 + (x * x + x) / 2.0)
  }

  function Drift(adt: real, j: int): real {
    j as real * adt
  }

  function RowAt(adt: real, jMax: int, j: int): Triple<real> {
    Probabilities(BranchAt(jMax, j), Drift(adt, j))
  }

  predicate InGrid(jMax: int, j: int) {
    -jMax <= j <= jMax
  }

  /** Every destination of a node of the grid is a node of the grid. */
  lemma DestinationsInGrid(jMax: int, j: int)
    requires jMax >= 3 && InGrid(jMax, j)
    ensures var d := Destinations(jMax, j);
            InGrid(jMax, d.up) && InGrid(jMax, d.mid) && InGrid(jMax, d.down)
            && d.up == d.mid + 1 && d.mid == d.down + 1
  {
  }

  /** Every row sums to one and matches the drift and the variance of the diffusion, under
      all three branchings, whatever `a * dt` is. */
  lemma RowMoments(adt: real, jMax: int, j: int)
    requires jMax >= 3 && InGrid(jMax, j)
    ensures var p, d, x := RowAt(adt, jMax, j), Destinations(jMax, j), Drift(adt, j);
            && p.up + p.mid + p.down == 1.0
            && p.up * (d.up - j) as real + p.mid * (d.mid - j) as real + p.down * (d.down - j) as real == -x
            && p.up * ((d.up - j) * (d.up - j)) as real + p.mid * ((d.mid - j) * (d.mid - j)) as real
               + p.down * ((d.down - j) * (d.down - j)) as real == 1.0 / 3.0 + x * x
  {
  }

  predicate AtLeast(p: Triple<real>, low: real) {
    p.up >= low && p.mid >= low && p.down >= low
  }

  ghost predicate AllRowsAtLeast(adt: real, low: real) {
    forall j :: InGrid(JMax(adt), j) ==> AtLeast(RowAt(adt, JMax(adt), j), low)
  }

  // ----- bounds of the three branchings -----

  lemma SquareIsNonNegative(y: real)
    ensures y * y >= 0.0
  {
  }

  lemma ProductIsNonNegative(y: real, z: real)
    requires y >= 0.0 && z >= 0.0
    ensures y * z >= 0.0
  {
  }

  /** At the boundary the middle probability is a downward parabola in the drift. */
  lemma BoundaryBounds(x: real)
    requires 0.184 <= x <= 1.5
    ensures AtLeast(Probabilities(Down, x), 0.0)
  {
    SquareIsNonNegative(x - 0.5);
    SquareIsNonNegative(x - 1.5);
    assert (x - 0.5) * (x - 0.5) == x * x - x + 0.25;
    assert (x - 1.5) * (x - 1.5) == x * x - 3.0 * x + 2.25;
    ProductIsNonNegative(x - 0.184, 1.5 - x);
    assert (x - 0.184) * (1.5 - x) == -(x * x) + 1.684 * x - 0.276;
  }

  lemma UpMirrorsDown(x: real)
    ensures Probabilities(Up, -x) == Triple(Probabilities(Down, x).down, Probabilities(Down, x).mid, Probabilities(Down, x).up)
  {
  }

  lemma CeilBounds(x: real)
    ensures x <= Ceil(x) as real < x + 1.0
  {
  }

  /** The boundary drift is at least 0.184, and the drift one step inside is below it
      whenever the boundary index is not the floor of three. */
  lemma BoundaryDrift(adt: real)
    requires adt > 0.000000000001
    ensures Drift(adt, JMax(adt)) >= 0.184
    ensures JMax(adt) > 3 ==> Drift(adt, JMax(adt) - 1) < 0.184 && adt < 0.1
  {
    var q := 0.184 / adt;
    CeilBounds(q);
    var c := Ceil(q);
    var j := JMax(adt);
    assert j == if c > 3 then c else 3;
    CeilTimes(adt, q, j);
  }

  lemma CeilTimes(adt: real, q: real, j: int)
    requires adt > 0.0 && q == 0.184 / adt && j as real >= q
    ensures Drift(adt, j) >= 0.184
    ensures j > 3 && (j - 1) as real < q ==> Drift(adt, j - 1) < 0.184 && adt < 0.1
  {
  }

  lemma Squares(x: real, b: real)
    requires -b <= x <= b
    ensures x * x <= b * b
  {
  }

  lemma DriftOrder(adt: real, j: int, k: int)
    requires adt > 0.0 && -k <= j <= k
    ensures -Drift(adt, k) <= Drift(adt, j) <= Drift(adt, k)
  {
  }

  /** With a tolerance `tol` below zero, every row is admitted exactly when `a * dt` is
      above the switch and `4 (a dt)^2` is at most `2/3 + tol`. Below the switch the
      boundary is pinned at 50, where the drift is too small for the outward branch. */
  lemma RowsAdmittedIff(adt: real, tol: real)
    requires adt > 0.0 && 0.0 <= tol <= 0.0000000001
    ensures AllRowsAtLeast(adt, -tol) <==> adt > 0.000000000001 && 4.0 * adt * adt <= 2.0 / 3.0 + tol
  {
    var jMax := JMax(adt);
    if adt > 0.000000000001 && 4.0 * adt * adt <= 2.0 / 3.0 + tol {
      forall j | InGrid(jMax, j) ensures AtLeast(RowAt(adt, jMax, j), -tol) {
        RowAdmitted(adt, tol, j);
      }
    } else if adt > 0.000000000001 {
      assert !AtLeast(RowAt(adt, jMax, 2), -tol) by {
        assert Drift(adt, 2) * Drift(adt, 2) == 4.0 * adt * adt;
      }
    } else {
      assert !AtLeast(RowAt(adt, jMax, jMax), -tol) by {
        SquareIsNonNegative(Drift(adt, 50));
      }
    }
  }

  lemma RowAdmitted(adt: real, tol: real, j: int)
    requires adt > 0.000000000001 && 4.0 * adt * adt <= 2.0 / 3.0 + tol && 0.0 <= tol <= 0.0000000001
    requires InGrid(JMax(adt), j)
    ensures AtLeast(RowAt(adt, JMax(adt), j), -tol)
  {
    var jMax := JMax(adt);
    BoundaryDrift(adt);
    StepIsSmall(adt, tol);
    hide JMax;
    if -jMax < j < jMax {
      InnerRow(adt, tol, jMax, j);
    } else {
      OuterRow(adt, jMax, j);
    }
  }

  lemma StepIsSmall(adt: real, tol: real)
    requires adt > 0.0 && 4.0 * adt * adt <= 2.0 / 3.0 + tol && 0.0 <= tol <= 0.0000000001
    ensures adt <= 0.45
  {
  }

  lemma InnerRow(adt: real, tol: real, jMax: int, j: int)
    requires adt > 0.0 && 4.0 * adt * adt <= 2.0 / 3.0 + tol && 0.0 <= tol <= 0.0000000001
    requires jMax >= 3 && -jMax < j < jMax && (jMax > 3 ==> Drift(adt, jMax - 1) < 0.184)
    ensures AtLeast(RowAt(adt, jMax, j), -tol)
  {
    InnerDriftSquare(adt, tol, jMax, j);
    StandardAdmitted(Drift(adt, j), tol);
  }

  lemma StandardAdmitted(x: real, tol: real)
    requires x * x <= 2.0 / 3.0 + tol && tol >= 0.0
    ensures AtLeast(Probabilities(Standard, x), -tol)
  {
  }

  lemma InnerDriftSquare(adt: real, tol: real, jMax: int, j: int)
    requires adt > 0.0 && 4.0 * adt * adt <= 2.0 / 3.0 + tol && 0.0 <= tol <= 0.0000000001
    requires jMax >= 3 && -jMax < j < jMax && (jMax > 3 ==> Drift(adt, jMax - 1) < 0.184)
    ensures Drift(adt, j) * Drift(adt, j) <= 2.0 / 3.0 + tol
  {
    var x, b := Drift(adt, j), Drift(adt, jMax - 1);
    DriftOrder(adt, j, jMax - 1);
    hide Drift;
    Squares(x, b);
    if jMax > 3 {
      Squares(b, 0.184);
    } else {
      TwoSteps(adt);
    }
  }

  lemma TwoSteps(adt: real)
    ensures Drift(adt, 2) * Drift(adt, 2) == 4.0 * adt * adt
  {
  }

  /** The drift at the boundary, where the outward branch bends. */
  lemma BoundaryRange(adt: real, jMax: int)
    requires 0.0 < adt <= 0.45 && jMax >= 3
    requires Drift(adt, jMax) >= 0.184 && (jMax > 3 ==> Drift(adt, jMax - 1) < 0.184)
    ensures 0.184 <= Drift(adt, jMax) <= 1.5 && Drift(adt, -jMax) == -Drift(adt, jMax)
  {
    assert Drift(adt, jMax) == Drift(adt, jMax - 1) + adt;
  }

  lemma OuterRow(adt: real, jMax: int, j: int)
    requires 0.0 < adt <= 0.45 && jMax >= 3 && (j == jMax || j == -jMax)
    requires Drift(adt, jMax) >= 0.184 && (jMax > 3 ==> Drift(adt, jMax - 1) < 0.184)
    ensures AtLeast(RowAt(adt, jMax, j), 0.0)
  {
    BoundaryRange(adt, jMax);
    hide Drift, Probabilities;
    BoundaryBounds(Drift(adt, jMax));
    UpMirrorsDown(Drift(adt, jMax));
  }

  /** The three probabilities of every row are probabilities exactly when `a * dt` is
      above the switch and `6 (a dt)^2 <= 1`. */
  lemma ProbabilitiesIff(adt: real)
    requires adt > 0.0
    ensures AllRowsAtLeast(adt, 0.0) <==> adt > 0.000000000001 && 6.0 * adt * adt <= 1.0
    ensures AllRowsAtLeast(adt, 0.0) ==>
      forall j :: InGrid(JMax(adt), j) ==>
        var p := RowAt(adt, JMax(adt), j); p.up <= 1.0 && p.mid <= 1.0 && p.down <= 1.0
  {
    RowsAdmittedIff(adt, 0.0);
    assert 6.0 * adt * adt == 1.5 * (4.0 * adt * adt);
    if AllRowsAtLeast(adt, 0.0) {
      forall j | InGrid(JMax(adt), j)
        ensures var p := RowAt(adt, JMax(adt), j); p.up <= 1.0 && p.mid <= 1.0 && p.down <= 1.0
      {
        RowMoments(adt, JMax(adt), j);
        assert AtLeast(RowAt(adt, JMax(adt), j), 0.0);
      }
    }
  }

  /** The boundary index is the least, from three on, at which the drift over a step reaches
      0.184; with no more than 1e-12 of drift a node it is fifty. */
  lemma BoundaryIsLeast(adt: real, j: int)
    requires 3 <= j
    ensures adt > 0.000000000001 ==> (j as real * adt >= 0.184 <==> JMax(adt) <= j)
    ensures adt <= 0.000000000001 ==> JMax(adt) == 50
  {
    var m := JMax(adt);
    if adt > 0.000000000001 {
      BoundaryDrift(adt);
      if m <= j {
        DriftGrows(adt, m, j);
      } else {
        DriftGrows(adt, j, m - 1);
      }
    }
  }

  lemma DriftGrows(adt: real, i: int, j: int)
    requires adt > 0.0 && i <= j
    ensures Drift(adt, i) <= Drift(adt, j)
  {
    ProductIsNonNegative((j - i) as real, adt);
  }
}
