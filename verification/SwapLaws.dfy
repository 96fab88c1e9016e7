/** Which way the swap under a swaption pays, what its fixed leg is, and how the price of the
    swaption follows the rate. */
module SwapLaws {
  import opened Reals
  import opened TreeProbabilities
  import opened TreeInduction
  import opened TreePricing
  import opened TrinomialTree
  import opened SwaptionPricer

  /** The bonds of the payments from the `k`-th on that are still ahead, each times its
      notional and accrual: what a fixed rate of one is worth. */
  function PvOfOne(bond: BondPrice, t: real, r: real, terms: SwapTerms, k: nat): real
    requires terms.Valid() && k <= |terms.paymentDates|
    decreases |terms.paymentDates| - k
  {
    if k == |terms.paymentDates| then 0.0
    else
      (if t < terms.paymentDates[k] then terms.dcf[k] * terms.notional[k] * bond(t, terms.paymentDates[k], r) else 0.0)
      + PvOfOne(bond, t, r, terms, k + 1)
  }

  /** The same without the notional. */
  function Accruals(bond: BondPrice, t: real, r: real, terms: SwapTerms, k: nat): real
    requires terms.Valid() && k <= |terms.paymentDates|
    decreases |terms.paymentDates| - k
  {
    if k == |terms.paymentDates| then 0.0
    else
      (if t < terms.paymentDates[k] then terms.dcf[k] * bond(t, terms.paymentDates[k], r) else 0.0)
      + Accruals(bond, t, r, terms, k + 1)
  }

  lemma {:induction false} BulletAccruals(bond: BondPrice, t: real, r: real, terms: SwapTerms, size: real, k: nat)
    requires Bullet(terms, size) && k <= |terms.paymentDates|
    ensures PvOfOne(bond, t, r, terms, k) == size * Accruals(bond, t, r, terms, k)
    decreases |terms.paymentDates| - k
  {
    if k < |terms.paymentDates| {
      BulletAccruals(bond, t, r, terms, size, k + 1);
      Factor(size, terms.dcf[k], bond(t, terms.paymentDates[k], r), Accruals(bond, t, r, terms, k + 1));
    }
  }

  lemma Factor(n: real, a: real, p: real, rest: real)
    ensures a * n * p + n * rest == n * (a * p + rest) && n * rest == n * (0.0 + rest)
  {
  }

  lemma {:induction false} FixedLegIsRate(bond: BondPrice, t: real, r: real, terms: SwapTerms, n: nat)
    requires terms.Valid() && n <= |terms.paymentDates|
    ensures FixedLeg(bond, t, r, terms, n) + terms.fixedRate * PvOfOne(bond, t, r, terms, n)
      == terms.fixedRate * PvOfOne(bond, t, r, terms, 0)
  {
    if n > 0 {
      FixedLegIsRate(bond, t, r, terms, n - 1);
      var k := n - 1;
      Coupon(terms.notional[k], terms.fixedRate, terms.dcf[k], bond(t, terms.paymentDates[k], r), PvOfOne(bond, t, r, terms, n));
    }
  }

  lemma Coupon(n: real, rate: real, a: real, p: real, rest: real)
    ensures rate * (a * n * p + rest) == n * rate * a * p + rate * rest && rate * (0.0 + rest) == rate * rest
  {
  }

  lemma {:induction false} SameFloatLeg(bond: BondPrice, t: real, r: real, terms: SwapTerms, other: SwapTerms, n: nat)
    requires terms.Valid() && n <= |terms.paymentDates|
    requires terms.(fixedRate := other.fixedRate, isPayer := other.isPayer) == other
    ensures FloatLeg(bond, t, r, terms, n) == FloatLeg(bond, t, r, other, n)
  {
    if n > 0 { SameFloatLeg(bond, t, r, terms, other, n - 1); }
  }

  lemma {:induction false} SamePvOfOne(bond: BondPrice, t: real, r: real, terms: SwapTerms, other: SwapTerms, k: nat)
    requires terms.Valid() && k <= |terms.paymentDates|
    requires terms.(fixedRate := other.fixedRate, isPayer := other.isPayer) == other
    ensures PvOfOne(bond, t, r, terms, k) == PvOfOne(bond, t, r, other, k)
    decreases |terms.paymentDates| - k
  {
    if k < |terms.paymentDates| { SamePvOfOne(bond, t, r, terms, other, k + 1); }
  }

  /** A bullet's payer gives the fixed rate on every accrual ahead and gets par, or the bond
      to the start, less the bond to the end; the receiver the other way round. */
  lemma BulletValue(bond: BondPrice, t: real, r: real, terms: SwapTerms, size: real)
    requires Bullet(terms, size) && DatesIncrease(terms) && t < terms.paymentDates[|terms.paymentDates| - 1]
    ensures var start := if terms.effective <= t then 1.0 else bond(t, terms.effective, r);
            var gets := size * (start - bond(t, terms.paymentDates[|terms.paymentDates| - 1], r));
            var gives := size * terms.fixedRate * Accruals(bond, t, r, terms, 0);
            SwapPv(bond, t, r, terms) == if terms.isPayer then gets - gives else gives - gets
  {
    var n := |terms.paymentDates|;
    hide FloatLeg, FixedLeg, Accruals;
    BulletFloatTelescopes(bond, t, r, terms, size, n);
    FixedLegIsRate(bond, t, r, terms, n);
    BulletAccruals(bond, t, r, terms, size, 0);
    Swapped(terms.fixedRate, size, Accruals(bond, t, r, terms, 0));
  }

  lemma Swapped(rate: real, size: real, x: real)
    ensures rate * (size * x) == size * rate * x && rate * 0.0 == 0.0
  {
  }

  /** Raising the fixed rate by `d` costs the payer, and earns the receiver, `d` on every
      accrual ahead. */
  lemma RaisingTheRate(bond: BondPrice, t: real, r: real, terms: SwapTerms, d: real)
    requires terms.Valid()
    ensures SwapPv(bond, t, r, terms.(fixedRate := terms.fixedRate + d))
      == SwapPv(bond, t, r, terms) + (if terms.isPayer then 0.0 - d else d) * PvOfOne(bond, t, r, terms, 0)
  {
    var n, raised := |terms.paymentDates|, terms.(fixedRate := terms.fixedRate + d);
    hide FloatLeg, FixedLeg;
    SameFloatLeg(bond, t, r, terms, raised, n);
    SamePvOfOne(bond, t, r, terms, raised, 0);
    FixedLegIsRate(bond, t, r, terms, n);
    FixedLegIsRate(bond, t, r, raised, n);
    NoRate(terms.fixedRate);
    NoRate(raised.fixedRate);
    hide PvOfOne;
    RateSplits(terms.fixedRate, d, PvOfOne(bond, t, r, terms, 0));
  }

  lemma NoRate(rate: real)
    ensures rate * 0.0 == 0.0
  {
  }

  lemma RateSplits(rate: real, d: real, x: real)
    ensures (rate + d) * x == rate * x + d * x && (0.0 - d) * x == 0.0 - d * x
  {
  }

  /** The receiver's swap is the payer's negated. */
  lemma ReceiverIsNegated(bond: BondPrice, t: real, r: real, terms: SwapTerms)
    requires terms.Valid()
    ensures SwapPv(bond, t, r, terms.(isPayer := false)) == -SwapPv(bond, t, r, terms.(isPayer := true))
  {
    var n, payer, receiver := |terms.paymentDates|, terms.(isPayer := true), terms.(isPayer := false);
    hide FloatLeg, FixedLeg, PvOfOne;
    SameFloatLeg(bond, t, r, payer, receiver, n);
    SamePvOfOne(bond, t, r, payer, receiver, 0);
    SamePvOfOne(bond, t, r, payer, receiver, n);
    FixedLegIsRate(bond, t, r, payer, n);
    FixedLegIsRate(bond, t, r, receiver, n);
  }

  // ----- the swaption -----

  /** Payments that cost something: no notional, accrual or bond is negative. */
  ghost predicate Costs(bond: BondPrice, terms: SwapTerms) {
    && terms.Valid() && (forall k :: 0 <= k < |terms.notional| ==> terms.notional[k] >= 0.0 && terms.dcf[k] >= 0.0)
    && forall t: real, T: real, r: real :: bond(t, T, r) >= 0.0
  }

  lemma {:induction false} PvOfOneCosts(bond: BondPrice, t: real, r: real, terms: SwapTerms, k: nat)
    requires Costs(bond, terms) && k <= |terms.paymentDates|
    ensures PvOfOne(bond, t, r, terms, k) >= 0.0
    decreases |terms.paymentDates| - k
  {
    if k < |terms.paymentDates| {
      PvOfOneCosts(bond, t, r, terms, k + 1);
      var T := terms.paymentDates[k];
      assert bond(t, T, r) >= 0.0;
      ProductIsNonNegative(terms.dcf[k], terms.notional[k]);
      ProductIsNonNegative(terms.dcf[k] * terms.notional[k], bond(t, terms.paymentDates[k], r));
    }
  }

  /** A higher fixed rate never makes a payer swaption dearer nor a receiver swaption
      cheaper, European or Bermudan. */
  lemma HigherRateFavoursTheReceiver(g: Grid, bond: BondPrice, terms: SwapTerms, d: real, steps: set<nat>)
    requires g.E.Valid() && Probable(g) && Costs(bond, terms) && d >= 0.0
    ensures var raised := terms.(fixedRate := terms.fixedRate + d);
            if terms.isPayer then RootValue(g, steps, NodePay(g, bond, raised)) <= RootValue(g, steps, NodePay(g, bond, terms))
            else RootValue(g, steps, NodePay(g, bond, raised)) >= RootValue(g, steps, NodePay(g, bond, terms))
  {
    hide JMax, Value, SwapPv, Alpha, Probable, ExpLn.Valid, Costs;
    var raised := terms.(fixedRate := terms.fixedRate + d);
    CostsAreValid(bond, terms, raised);
    var low, high := NodePay(g, bond, terms), NodePay(g, bond, raised);
    forall e, j ensures if terms.isPayer then high(e, j) <= low(e, j) else low(e, j) <= high(e, j) {
      var t, r := Time(g, e), g.ShortRate(Shift(g, e), j);
      RaisingTheRate(bond, t, r, terms, d);
      PvOfOneCosts(bond, t, r, terms, 0);
      Earns(d, PvOfOne(bond, t, r, terms, 0));
    }
    if terms.isPayer { BetterPayoffWorthMore(g, steps, high, low, 0); } else { BetterPayoffWorthMore(g, steps, low, high, 0); }
  }

  lemma CostsAreValid(bond: BondPrice, terms: SwapTerms, raised: SwapTerms)
    requires Costs(bond, terms) && terms.(fixedRate := raised.fixedRate) == raised
    ensures terms.Valid() && raised.Valid()
  {
  }

  lemma Earns(d: real, x: real)
    requires d >= 0.0 && x >= 0.0
    ensures d * x >= 0.0 && (0.0 - d) * x <= 0.0
  {
  }

  /** A European payer less the receiver at the same rate is the value of the swap itself. */
  lemma PayerLessReceiver(g: Grid, bond: BondPrice, terms: SwapTerms, e: nat)
    requires terms.Valid() && e <= g.n
    ensures var payer, receiver := terms.(isPayer := true), terms.(isPayer := false);
            RootValue(g, {e}, NodePay(g, bond, payer)) - RootValue(g, {e}, NodePay(g, bond, receiver))
              == Inner(QRow(g, e), PlainRow(g, e, NodePay(g, bond, payer)), g.Width())
  {
    hide JMax, QRow, Inner, SwapPv, Alpha;
    var payer, receiver := terms.(isPayer := true), terms.(isPayer := false);
    var p, q := NodePay(g, bond, payer), NodePay(g, bond, receiver);
    PayerReceiverParity(g, e, p);
    forall i, j ensures q(i, j) == Negated(p)(i, j) {
      ReceiverIsNegated(bond, Time(g, i), g.ShortRate(Shift(g, i), j), terms);
    }
    SameRow(g, e, q, Negated(p));
    ForwardBackwardDuality(g, e, q);
    ForwardBackwardDuality(g, e, Negated(p));
  }

  lemma SameRow(g: Grid, e: nat, pay: Payoff, pay': Payoff)
    requires forall i, j :: pay(i, j) == pay'(i, j)
    ensures ExerciseRow(g, e, pay) == ExerciseRow(g, e, pay')
  {
    BetterRow(g, e, pay, pay');
    BetterRow(g, e, pay', pay);
  }

  /** At the start of a one-year payer at 5% on 100, with its bond at 0.9: ten for the floating
      leg less 4.5. */
  lemma OneYearPayer(bond: BondPrice, r: real)
    requires bond(1.0, 2.0, r) == 0.9
    ensures SwapPv(bond, 1.0, r, SwapTerms([2.0], [1.0], [100.0], 0.05, true, 1.0)) == 5.5
  {
    var terms := SwapTerms([2.0], [1.0], [100.0], 0.05, true, 1.0);
    BulletValue(bond, 1.0, r, terms, 100.0);
    assert Accruals(bond, 1.0, r, terms, 1) == 0.0;
    assert Accruals(bond, 1.0, r, terms, 0) == 0.9;
  }

  /** Entering the floating side alone at step `i` and node `j`, its start not after that
      step, is par less the bond from the time of the step at the rate of the node. */
  lemma EnteringTheFloatingSide(g: Grid, bond: BondPrice, terms: SwapTerms, i: nat, j: int)
    requires Bullet(terms, 1.0) && DatesIncrease(terms) && terms.isPayer && terms.fixedRate == 0.0
    requires terms.effective <= i as real * g.dt
    ensures var end := terms.paymentDates[|terms.paymentDates| - 1];
            var rate := (if i < g.n then Alpha(g, i) else 0.0) + j as real * g.dx;
            i as real * g.dt < end ==> NodePay(g, bond, terms)(i, j) == 1.0 - bond(i as real * g.dt, end, rate)
  {
    hide Alpha, FloatLeg, FixedLeg, SwapPv, Accruals;
    var t, rate := i as real * g.dt, (if i < g.n then Alpha(g, i) else 0.0) + j as real * g.dx;
    if t < terms.paymentDates[|terms.paymentDates| - 1] {
      BulletValue(bond, t, rate, terms, 1.0);
      NothingTilted(Accruals(bond, t, rate, terms, 0));
      assert 1.0 * terms.fixedRate * Accruals(bond, t, rate, terms, 0) == 0.0;
      assert SwapPv(bond, t, rate, terms) == 1.0 - bond(t, terms.paymentDates[|terms.paymentDates| - 1], rate);
      assert Time(g, i) == t && g.ShortRate(Shift(g, i), j) == rate;
    }
  }
}
