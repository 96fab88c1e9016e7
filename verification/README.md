# A trading desk's hard parts, verified

A Dafny model of five parts of a trading desk's backend, and proofs of what each part is for:

1. **The OIS curve bootstrap** (`backend/pricing/bootstrap.py`): civil dates, log-linear interpolation, the annual
   grid and the tenor quotes, and when the finished curve reprices the quotes it was built from.
2. **The Hull-White trinomial tree** (`backend/pricing/bermudan_swaption.py`): transition rows, the forward induction
   that fits the curve, the backward induction that prices, and what each says about the other.
3. **The canonical trade record, schema version 2** (`backend/chain/canonical.py`): one text for both parties' bookings,
   whether a trade is booked as legs or as a currency or digital-asset product.
4. **Anchoring and background jobs** (`backend/chain/pending.py`, `attestation.py`, `budget.py`, `backend/jobs/queue.py`,
   `backend/worker.py`): protocols whose steps are committed transactions and whose node may answer anything.
5. **P&L attribution** (`backend/pnl/explain.py`, `market.py`): sequential revaluation, day by day and over a trade's life.

Prices and rates are `real`. Exponential and logarithm are a value `ExpLn` of two functions; results that need their
laws take `ExpLn.Valid()` as a requirement (positive, one at zero, sums into products, inverse of each other), so nothing is
postulated. What the program changes in place is a class (the tree's arrays, the pending-anchor store, the node client,
the budget, the job table, the valuer and the explain run); each of its methods is proved against a specification
function or a step of a state machine, and the properties are lemmas about those. The rest is datatypes and functions.

## Files

| file | content |
|---|---|
| `Options.dfy`, `Strings.dfy`, `Reals.dfy` | a value or none; upper case; exponential and logarithm |
| `CivilDate.dfy`, `DayCounts.dfy` | calendar dates and year, month and day stepping; the four year fractions |
| `Pillars.dfy`, `Bootstrap.dfy`, `BootstrapSeed.dfy`, `BootstrapCurve.dfy` | interpolation; the par equation and runs of it; deposits and the frozen spot factor; from quotes to curve |
| `CurveDayCounts.dfy`, `BootstrapLimits.dfy`, `LeapSpot.dfy`, `OwnDayCount.dfy` | periods under the program's day counts; a lone tenor beyond the grid; spot on 29 February; an annual quote's own day count |
| `TreeProbabilities.dfy`, `TreeInduction.dfy`, `TreePricing.dfy`, `TrinomialTree.dfy`, `SwaptionPricer.dfy`, `SwapLaws.dfy` | rows; the two inductions; order and duality of values; the tree's arrays; the pricer; what a swap and a swaption on it are worth |
| `Decimals.dfy`, `DecimalArithmetic.dfy`, `Json.dfy`, `StableSort.dfy` | decimal normal form; comparing and multiplying; printer and reader; stable sort by key |
| `RecordFields.dfy`, `ProductRecord.dfy`, `ProductBookings.dfy`, `ProductRules.dfy`, `CanonicalRecord.dfy`, `RecordMeaning.dfy` | fields and sides; the product block; which bookings give the same block; which are recorded, and what their block says; legs and the record; what a record says of what was booked |
| `PendingAnchors.dfy`, `EvmSend.dfy`, `ChainBudget.dfy`, `JobQueue.dfy` | the four protocols |
| `Market.dfy`, `Explain.dfy` | quotes and buckets; the explain run and the life of a trade |

## Where the code and its documentation part

The model follows the code.

- *Bootstrap, "NPV = $0.0000 for any CCY, any tenor".* A tenor quote whose last coupon lies beyond the annual grid does not
  reprice in general (`EighteenMonthsAloneDoesNotReprice`); the exact condition is `TenorReprices`. Under each of the four day
  counts, annual quotes always reprice if and only if spot is not 29 February (`AnnualAlwaysRepricesIff`): maturity less k years
  is then not spot plus the other years, and a coupon between two pillars moves when a tenor quote is solved
  (`LeapDaySpotDoesNotReprice`). The annual grid alone reprices from any spot (`GridReprices`).
- *Bootstrap, an annual quote's own day count.* The quote is solved under the swap day count. Under its own it reprices if and
  only if its rate is zero or the two accrue the same in each of its years (`OwnDayCountRepricesIff`); with ACT/360 on one side
  only, just at a rate of zero (`OnlyOneIsAct360`, `YearUnder365DoesNotReprice`).
- *Tree, a·dt at or below 1e-12.* The fixed boundary of 50 chosen there never gives admissible probabilities
  (`RowsAdmittedIff`): the construction always fails. It also fails above 4(a·dt)² = 2/3 plus the tolerance.
- *Tree, last step.* The drift adjustment of the last grid step is never fitted and stays zero. The short rates of a step
  reprice the next discount factor if and only if the step is not the last or its fit would have been zero (`StepRepricesIff`),
  so a payoff taken at the horizon is in general misvalued: the bond of the last step is the unshifted one
  (`LastStepIsUnshifted`, `BareGridMisprices`).
- *Canonical record, "each party's own booking produces the same bytes".* Not for a custom cashflow of amount zero
  (`CashflowMirrorsIff`). The order in which cashflows are booked is free if and only if rows that tie in date, type, payer
  and amount are equal (`CashflowOrderIsFreeIff`). Numbers that agree in 28 digits are written alike
  (`BeyondPrecisionCollides`).
- *Pending anchors, "the registry has no record".* A failed registry read counts as no record, so a row may be given up
  although the record is there (`FailedDespiteRecordIff`, `FailedDespiteRecord`), and past two hours although its transaction
  was mined (`FailedThoughMinedIff`). A trade that leaves PENDING after a reconciler loaded it is confirmed all the same
  (`ATradeThatLeftIsConfirmed`).
- *Budget.* When the advisory lock cannot be taken the check runs unserialised. Two callers admitted on the same table keep
  the caps if and only if every capped window that holds both has room for two (`UnserialisedCappedIff`); the last attempt can
  be taken twice (`LastAttemptTakenTwice`).
- *Job queue.* A worker presumed dead can still overwrite the outcome of the one that replaced it, exactly when its claim has
  not reported (`OutcomeMayChangeIff`, `LateReportOverwrites`).
- *Explain, "the rows sum to the total by construction".* They do if and only if the residual is zero or more than 0.005, in
  which case it is shown (`ExplainTrade`); half a cent is lost in `HalfACentIsLost`.
- *Explain, a trade's whole life.* The row of a new trade holds its mark alone, and the unwind removes the mark of the last
  explained close and counts no cash. What settles between booking and the first close, or from the last explained close to the
  unwind, is in no row, and the rows account for all the cash if and only if that comes to nothing (`WholeLife`, `ConservedIff`,
  `FirstPaymentIsLost`, `LastCouponIsLost`).

## Model

| member | source | states |
|---|---|---|
| CivilDate.AddDaysMovesDay | backend/pricing/bootstrap.py:110-113 | stepping n days moves the serial day by exactly n, across month and leap-year ends |
| CivilDate.YearStepsComposeIff | backend/pricing/bootstrap.py:181-183 | j years and then k years is j + k years if and only if the date is not 29 February, or the year between is a leap year, or the last is not |
| CivilDate.SteppingBackIsMonotone | backend/pricing/bootstrap.py:183-184 | whole-year steps keep the order of two dates |
| CivilDate.MonthLengths | backend/pricing/day_count.py:10-11 | the twelve months have their lengths, and a century is a leap year only every four |
| DayCounts.ActActIsda | backend/pricing/day_count.py:33-53 | the loop over the years computes the specification's fraction, for any two dates |
| DayCounts.ActActIsPosition | backend/pricing/day_count.py:33-53 | ACT/ACT is the difference of two calendar positions, so fractions of adjoining periods add up |
| DayCounts.ActualDaysOrder | backend/pricing/day_count.py:14-53 | on every period ACT/360 accrues more than ACT/365F, which accrues at least what ACT/ACT does |
| DayCounts.WholeYearOrder | backend/pricing/day_count.py:18-30 | on a whole year from a date other than 29 February 30/360 accrues exactly one, and ACT/365F at least as much |
| DayCounts.ActualDaysCounted | backend/pricing/day_count.py:14-19 | ACT/360 and ACT/365F times their year are the days between |
| DayCounts.Thirty360Rules | backend/pricing/day_count.py:22-30 | a start on the 31st counts as the 30th, an end on the 31st does only after a start on the 30th or 31st, and otherwise every month has thirty days |
| DayCounts.Thirty360Examples | backend/pricing/day_count.py:22-30 | half a year is 0.5, the 15th to the 31st sixteen days, the 30th to the 31st none |
| DayCounts.NamesOfAct365F | backend/pricing/day_count.py:56-74 | the names of ACT/365F; a name that is not known means ACT/360 |
| DayCounts.NamesOfThirty360 | backend/pricing/day_count.py:56-74 | the names of 30/360 |
| DayCounts.NamesOfActAct | backend/pricing/day_count.py:56-74 | the names of ACT/ACT |
| DayCounts.SpellingOfAName | backend/pricing/day_count.py:68-74 | case and surrounding space are no part of a name |
| Pillars.SortedDedup | backend/pricing/bootstrap.py:159-162 | the result is increasing and denotes the last-wins map of the list |
| Pillars.InterpDf | backend/pricing/bootstrap.py:135-156 | the binary search returns the log-linear value of the bracket of its date, for a sorted pillar list |
| Pillars.DfDependsOnPillarsUpTo | backend/pricing/bootstrap.py:135-156 | two curves that share every pillar up to p, one of them on or after the date, agree at the date |
| Pillars.SetMovesUncoveredDates | backend/pricing/bootstrap.py:135-156 | setting a pillar moves a date before it with no pillar between exactly when it moves the curve at the pillar, and in the same direction |
| Bootstrap.AnnualPeriods | backend/pricing/bootstrap.py:165-193 | the backward loop yields the periods of the specification, spot to maturity |
| Bootstrap.PeriodsTile | backend/pricing/bootstrap.py:176-193 | the periods are contiguous, run forward in time, and cover exactly spot to maturity |
| Bootstrap.CouponsStepBack | backend/pricing/bootstrap.py:178-191 | each interior coupon is maturity minus a whole number of years, after spot |
| Bootstrap.FloatLegTelescopes | backend/pricing/bootstrap.py:206-212 | the floating leg over contiguous periods is the first discount factor less the last |
| Bootstrap.BootstrapOis | backend/pricing/bootstrap.py:196-228 | the loop solves the specification's par equation or refuses at the threshold |
| Bootstrap.TerminalSolvesPar | backend/pricing/bootstrap.py:220-228 | the terminal factor is positive and makes the swap worth nothing on the curve it was solved on |
| Bootstrap.TerminalRefusesIff | backend/pricing/bootstrap.py:220-228 | whatever factor solves the par equation is the outcome, unless it is at or below 1e-8; with a zero denominator there is none |
| Bootstrap.FinalRepricingError | backend/pricing/bootstrap.py:343-360 | whatever is solved after it, a solved quote is off par on the final curve by its rate times the fall of its interior annuity plus the fall of its own pillar, grossed up by the last coupon |
| Bootstrap.CouponRepricingError | backend/pricing/bootstrap.py:343-360 | when no later item matures on its day, only the interior annuity matters |
| Bootstrap.GridReprices | backend/pricing/bootstrap.py:343-353 | with the annual grid alone every annual quote reprices to zero, from any spot date |
| Bootstrap.LaterItemsKeepEarlierPillars | backend/pricing/bootstrap.py:355-360 | quotes maturing after a pillar leave the whole curve up to it as it was |
| Bootstrap.AnnualReprices | backend/pricing/bootstrap.py:343-360 | every grid item reprices to exactly zero on the final curve, tenor quotes included |
| Bootstrap.TenorReprices | backend/pricing/bootstrap.py:355-360 | a tenor quote reprices to zero if and only if its rate is zero, it has no interior coupon, a known pillar lies between its last coupon and its maturity, or the curve already went through its pillar |
| Bootstrap.TenorWithinGridReprices | backend/pricing/bootstrap.py:355-360 | a tenor quote whose last coupon is not beyond the grid reprices to zero |
| BootstrapCurve.InterpolateRate | backend/pricing/bootstrap.py:231-243 | the scan returns the linear interpolation between the two sorted neighbours, flat outside |
| BootstrapCurve.RateAtQuotedYear | backend/pricing/bootstrap.py:231-243 | at a quoted year, quoted once, the grid takes the quoted rate |
| BootstrapCurve.RateBetweenQuotes | backend/pricing/bootstrap.py:231-243 | between two neighbouring quotes the rate lies on the line through them |
| BootstrapCurve.RateOutsideQuotes | backend/pricing/bootstrap.py:231-243 | before the first quote and after the last the rate is theirs |
| BootstrapCurve.GridBetweenQuotes | backend/pricing/bootstrap.py:343-353 | every grid item between two neighbouring whole-year quotes is solved at the rate on their line, on the anniversary of spot, under the swap day count |
| BootstrapCurve.GridBeforeQuotes | backend/pricing/bootstrap.py:343-353 | before the first quoted year the grid is solved at the first quoted rate |
| BootstrapCurve.MaturityIs | backend/pricing/bootstrap.py:96-123 | weeks are seven days, months twelve to the year, and the day of the month is kept or, where there is none, the last |
| BootstrapCurve.Build | backend/pricing/bootstrap.py:320-363 | both phases with their growing pillar list compute the run of the specification, or refuse when it does |
| BootstrapCurve.EveryQuoteReprices | backend/pricing/bootstrap.py:246-262 | from a consistent quote set, every annual quote, valued under the swap day count it is solved with, and every tenor quote within the grid is worth exactly zero at its own rate on the final curve |
| OwnDayCount.OwnDayCountRepricesIff | backend/pricing/bootstrap.py:343-353 | from the quote and spot alone: under its own day count an annual quote is worth zero if and only if its rate is zero or both day counts accrue the same in each of its years |
| OwnDayCount.OnlyOneIsAct360 | backend/pricing/bootstrap.py:343-353 | with ACT/360 on one side only the two day counts differ in the first year already |
| OwnDayCount.YearUnder365DoesNotReprice | backend/pricing/bootstrap.py:343-353 | one year at 10% under ACT/365F, alone on an ACT/360 curve from any spot but 29 February, does not reprice under its own day count |
| OwnDayCount.AnnuitiesDecide | backend/pricing/bootstrap.py:343-353 | for any two day counts, it is worth zero if and only if its rate is zero or both give one annuity on the final curve |
| BootstrapSeed.Seed | backend/pricing/bootstrap.py:276-307 | the loop over the deposits builds the pillars before the swaps, with the frozen spot pillar last |
| BootstrapSeed.DepositGrows | backend/pricing/bootstrap.py:125-127 | a unit deposited grows to one plus rate times accrual |
| BootstrapSeed.SeedIsAnchored | backend/pricing/bootstrap.py:276-307 | whatever the deposits, none included, those pillars start at one on the valuation date, are positive, and hold the frozen factor on the spot date |
| BootstrapSeed.SpotIsFrozenOnTheCurve | backend/pricing/bootstrap.py:296-307 | the frozen spot factor is what the overnight curve itself returns on the spot date |
| BootstrapLimits.EighteenMonthsAloneDoesNotReprice | backend/pricing/bootstrap.py:246-262 | a concrete 18-month quote without a grid that does not reprice, under every day count of the program |
| LeapSpot.LeapDaySpotDoesNotReprice | backend/pricing/bootstrap.py:343-360 | from every 29 February, under every day count of the program, a quote set whose last annual quote does not reprice |
| LeapSpot.AnnualAlwaysRepricesIff | backend/pricing/bootstrap.py:343-360 | for each spot date and each swap day count of the program, every annual quote of every quote set on the grid reprices to zero if and only if spot is not 29 February |
| TreeProbabilities.DestinationsInGrid | backend/pricing/bermudan_swaption.py:525-531 | the three destinations are consecutive nodes of the grid under every branching |
| TreeProbabilities.RowMoments | backend/pricing/bermudan_swaption.py:414-462 | every row sums to one and has mean -j·a·dt and second moment 1/3 + (j·a·dt)², under all three branchings |
| TreeProbabilities.ProbabilitiesIff | backend/pricing/bermudan_swaption.py:403-462 | all rows are probabilities if and only if a·dt > 1e-12 and 6(a·dt)² <= 1 |
| TreeProbabilities.RowsAdmittedIff | backend/pricing/bermudan_swaption.py:414-462 | the construction accepts its rows, within its tolerance, if and only if a·dt > 1e-12 and 4(a·dt)² <= 2/3 + tolerance |
| TreeProbabilities.BoundaryIsLeast | backend/pricing/bermudan_swaption.py:403-412 | the boundary index is the least from three on at which the drift reaches 0.184, and fifty where a node hardly drifts |
| TreeInduction.ProbableIff | backend/pricing/bermudan_swaption.py:403-462 | the rows of a grid are all non-negative if and only if a·dt > 1e-12 and 6(a·dt)² <= 1 |
| TreeInduction.StepDuality | backend/pricing/bermudan_swaption.py:499-519 | rolling state prices forward and then weighing a value row is weighing the rolled-back row by today's prices |
| TreeInduction.QInBand | backend/pricing/bermudan_swaption.py:465-519 | no state price outside the reachable band |
| TreeInduction.CurveFit | backend/pricing/bermudan_swaption.py:465-519 | state prices are non-negative and sum at every step to the market discount factor |
| TreeInduction.DiscountUndoesTheRate | backend/pricing/bermudan_swaption.py:521-523 | a unit lent for a step at a node's short rate, the adjustment plus the node's offset, is worth one now |
| TreeInduction.HigherNodesDiscountMore | backend/pricing/bermudan_swaption.py:521-523 | higher nodes have higher rates and discount more |
| TrinomialTree.HW1FTrinomialTree.BuildProbs | backend/pricing/bermudan_swaption.py:414-462 | the arrays hold the rows, and the method fails exactly when a row falls below the tolerance |
| TrinomialTree.HW1FTrinomialTree.FitAlpha | backend/pricing/bermudan_swaption.py:465-519 | the forward loops fill the arrays with the specification's state prices and adjustments, or fail at the first non-positive factor or sum |
| TrinomialTree.HW1FTrinomialTree.DiscountCurveCheck | backend/pricing/bermudan_swaption.py:533-544 | the largest relative error over the grid, attained at some step, and zero whenever the fit applies |
| TrinomialTree.RelativeErrorScales | backend/pricing/bermudan_swaption.py:533-544 | the relative error is the difference as a share of the market factor, or of 1e-12 |
| TrinomialTree.StepRepricesIff | backend/pricing/bermudan_swaption.py:465-523 | the stored adjustment of a step reprices the next discount factor if and only if the step was fitted or its fit would have been zero |
| TrinomialTree.LastStepIsUnshifted | backend/pricing/bermudan_swaption.py:465-523 | the bond of the last step is the sum over the state prices at the unshifted rates, whatever the market quotes beyond |
| TrinomialTree.BareGridMisprices | backend/pricing/bermudan_swaption.py:465-523 | a fitted grid of no steps pays one for a bond the market sells below one |
| TrinomialTree.SwapPvAtNode | backend/pricing/bermudan_swaption.py:585-630 | the loop computes floating less fixed leg over the periods still ahead, signed by side |
| TrinomialTree.BulletFloatTelescopes | backend/pricing/bermudan_swaption.py:603-627 | for a constant notional the floating leg is par, or the bond to the start, less the bond to the last date |
| SwapLaws.BulletValue | backend/pricing/bermudan_swaption.py:603-630 | a payer of a bullet is worth the notional times par or the bond to the start, less the bond to the end, less the rate times accruals times bonds; a receiver the opposite |
| SwapLaws.RaisingTheRate | backend/pricing/bermudan_swaption.py:603-630 | raising the fixed rate by d lowers a payer, and raises a receiver, by exactly d times the sum of notional, accrual and bond |
| SwapLaws.ReceiverIsNegated | backend/pricing/bermudan_swaption.py:628-630 | the receiver of a swap is worth minus its payer |
| SwapLaws.OneYearPayer | backend/pricing/bermudan_swaption.py:603-630 | a year's payer on 100 at 5% with a bond of 0.9 is worth 5.5 |
| SwapLaws.EnteringTheFloatingSide | backend/pricing/bermudan_swaption.py:585-630 | exercise into the floating side of a unit bullet pays, at a step and node, par less its last bond at that step's time and that node's rate |
| TreePricing.ForwardBackwardDuality | backend/pricing/bermudan_swaption.py:694-757 | for any payoff, grid and exercise step, the backward European value is the state prices times the floored payoff |
| TreePricing.PayerReceiverParity | backend/pricing/bermudan_swaption.py:694-757 | payer less receiver is the state-price value of the unfloored payoff |
| TreePricing.MoreDatesWorthMore | backend/pricing/bermudan_swaption.py:711-757 | adding exercise dates never lowers the value of any node |
| TreePricing.BermudanSandwich | backend/pricing/bermudan_swaption.py:694-757 | at every node the Bermudan is at least each of its Europeans and at most their sum |
| TreePricing.ValueIsLeastCover | backend/pricing/bermudan_swaption.py:694-757 | at every node the value is the least of all value rows that are worth at least exercise where it is allowed and at least their own continuation everywhere |
| TreePricing.BetterPayoffWorthMore | backend/pricing/bermudan_swaption.py:694-757 | a payoff nowhere worse is nowhere worth less |
| SwapLaws.HigherRateFavoursTheReceiver | backend/pricing/bermudan_swaption.py:694-757 | with notionals, accruals and bonds not negative and rows that are probabilities, a higher fixed rate never raises a payer swaption nor lowers a receiver's, Bermudan or European |
| SwapLaws.PayerLessReceiver | backend/pricing/bermudan_swaption.py:694-757 | European payer less receiver is the state-price value of the payer swap |
| TreePricing.PremiumIsNotTruncated | backend/pricing/bermudan_swaption.py:759-762 | the floor at zero never cuts the early-exercise premium |
| SwaptionPricer.ExerciseSteps | backend/pricing/bermudan_swaption.py:679-691 | the step set is exactly the snapped times and its latest member is the European step |
| SwaptionPricer.SnappedIsNearest | backend/pricing/bermudan_swaption.py:679-691 | no step is nearer to an exercise time than its own |
| SwaptionPricer.GridTimesAreAccepted | backend/pricing/bermudan_swaption.py:668-691 | times on distinct steps, one of them no later than the swap's start, are accepted |
| SwaptionPricer.RefusedWhen | backend/pricing/bermudan_swaption.py:668-691 | refused are no times, a repeated time, a time at or before now or beyond the horizon, a time more than 1e-6 from every step, and a swap that starts before all of them |
| SwaptionPricer.PriceSwaptionViaTree | backend/pricing/bermudan_swaption.py:650-785 | prices exactly the accepted schedules, and returns the root values of the two backward inductions and their difference, which its floor never cuts when the rows are probabilities |
| Decimals.RoundedIsNearest | backend/chain/canonical.py:87 | normalising keeps 28 digits and moves by at most half a unit of the last, to even on a tie |
| Decimals.NumStrIsNormal | backend/chain/canonical.py:79-93 | the text is an optional minus, digits, and an optional fraction not ending in zero; no exponent, no minus zero |
| Decimals.SameStringIffSameRounding | backend/chain/canonical.py:79-93 | two numbers are written alike if and only if they round to the same value |
| Decimals.RoundTripIff | backend/chain/canonical.py:79-93 | a number is read back unchanged if and only if it has no non-zero digit beyond the 28th |
| Decimals.SameStringIffSameValue | backend/chain/canonical.py:79-93 | among such numbers equal text is equal value |
| DecimalArithmetic.EqualValuesWrittenAlike | backend/chain/canonical.py:259-261 | equal values are written alike however many digits they were booked with |
| Decimals.BeyondPrecisionCollides | backend/chain/canonical.py:79-93 | two 29-digit numbers that differ and are written alike |
| Json.ReadPrinted | backend/chain/canonical.py:208-209 | reading the printed text followed by anything gives the value back and leaves the rest (RFC 8259 sections 4, 5 and 7) |
| Json.PrintInjective | backend/chain/canonical.py:523-524 | different values have different text |
| Json.NoneIsPrefix | backend/chain/canonical.py:523-524 | no printed value other than a number begins another |
| RecordMeaning.TextOfAnObject | backend/chain/canonical.py:208-209 | an object is written without white space, its fields in order |
| RecordMeaning.TextOfAList | backend/chain/canonical.py:208-209 | a list is written without white space, its items as they stand |
| RecordMeaning.EscapesAre | backend/chain/canonical.py:208-209 | which characters are escaped, and how; every other is written as it is |
| RecordMeaning.LeqIsDictionary | backend/chain/canonical.py:205-209 | texts are ordered as in a dictionary, by code points |
| StableSort.SortAlikeIff | backend/chain/canonical.py:205 | two lists sort alike by a key if and only if the rows of each key stand in the same order |
| StableSort.SortByContent | backend/chain/canonical.py:191 | when equal keys mean equal rows, two lists sort alike if and only if they hold the same rows |
| CanonicalRecord.BuildOptionsV2 | backend/chain/canonical.py:185-191 | the loop orients and sorts the options, or fails at the first bad direction |
| CanonicalRecord.BuildCashflowsV2 | backend/chain/canonical.py:194-205 | the loop orients and sorts the custom cashflows |
| CanonicalRecord.BuildCanonicalV2 | backend/chain/canonical.py:487-520 | the dispatch and the loops build the specification's record, of a product or of legs, or refuse with its first error |
| CanonicalRecord.LegNamesItsSides | backend/chain/canonical.py:175-182 | a leg booked PAY is paid by the booker and received by the counterparty, RECEIVE the other way round, and nothing else is recorded |
| Strings.UpperOfTheAlphabet | backend/chain/canonical.py:177 | upper case turns every letter into its capital |
| Strings.UpperLeavesTheRest | backend/chain/canonical.py:177 | and leaves every other character |
| CanonicalRecord.OptionNamesItsSides | backend/chain/canonical.py:185-191 | an option booked BUY or LONG has the booker as its buyer, SELL or SHORT the counterparty |
| CanonicalRecord.CashflowNamesItsSides | backend/chain/canonical.py:194-204 | a negative amount is paid by the booker, any other by the counterparty, and stated without its sign |
| CanonicalRecord.RecordNamesThePayer | backend/chain/canonical.py:501-512 | each leg stands in the record as it is stated |
| CanonicalRecord.RecordFieldsAre | backend/chain/canonical.py:487-520 | the record's fields, its schema and version, and the eight trade fields |
| CanonicalRecord.EveryTermCounts | backend/chain/canonical.py:156-165 | legs that differ in any of the twenty-four economic terms are never stated alike |
| RecordMeaning.NormaliseStates | backend/chain/canonical.py:96-111 | text, yes or no and null stand as booked, a number as text that reads back as the number rounded, lists and objects part by part |
| RecordMeaning.TradeStates | backend/chain/canonical.py:513-520 | the record states identifier and trade fields as booked |
| RecordMeaning.LegStates | backend/chain/canonical.py:501-511 | a leg states its terms and index as booked, its sides, options and cashflows, and nothing else |
| RecordMeaning.OptionStates | backend/chain/canonical.py:185-191 | an option states every field but its direction, and its sides instead |
| RecordMeaning.CashflowStates | backend/chain/canonical.py:194-204 | a cashflow states type, dates and currency as booked, and amount and sides |
| RecordMeaning.CashflowsStandInOrder | backend/chain/canonical.py:205 | cashflows stand by date, then type, payer and amount |
| RecordMeaning.PartiesStandInOrder | backend/chain/canonical.py:517 | the parties are the two of the trade, in order, whoever books |
| CanonicalRecord.SideIndependent | backend/chain/canonical.py:487-520 | swapping the parties, opposing every direction, negating non-zero cashflows, permuting legs and options, or spelling a product's terms otherwise gives the identical record or the identical refusal |
| CanonicalRecord.SameRecordIff | backend/chain/canonical.py:487-524 | two records are the same text if and only if UTI, parties, trade fields and substance agree: the product block, or the multiset of stated legs |
| CanonicalRecord.SameLegIff | backend/chain/canonical.py:501-512 | two stated legs are equal if and only if fields, index, sides, the multiset of oriented options, and the cashflows with ties in order agree |
| CanonicalRecord.CashflowMirrorsIff | backend/chain/canonical.py:194-205 | negating a cashflow mirrors it if and only if its amount is not zero |
| CanonicalRecord.CashflowOrderIsFreeIff | backend/chain/canonical.py:205 | a list of cashflows of any length may be booked in every order if and only if rows with equal sort keys are equal |
| ProductRecord.BuildProductV2 | backend/chain/canonical.py:348-484 | defaults, required terms, style and amount checks and the loop over the terms build the specification's block for all six instruments, or refuse with its first error |
| ProductRecord.ProductNamesItsSides | backend/chain/canonical.py:370-371 | the buyer of a product booked BUY or LONG is the booker, SELL or SHORT the counterparty, and nothing else is recorded |
| ProductRecord.SameProductIff | backend/chain/canonical.py:348-454 | two product blocks are equal if and only if product, stated terms, buyer and seller are |
| ProductBookings.SameBookingIff | backend/chain/canonical.py:348-454 | two bookings give the same block if and only if they name the same buyer and seller and agree term by term in what was booked: codes but for case, numbers to 28 digits, yes or no by what they amount to |
| ProductBookings.WrittenAlikeIff | backend/chain/canonical.py:96-111 | two booked values are recorded alike if and only if they are the same part by part, numbers to 28 digits and a number as its own text |
| ProductRecord.SpellingIsNoMatter | backend/chain/canonical.py:259-261 | bookings that differ in the case of a code or the spelling of a number give the same block or the same refusal, whichever side books |
| ProductRecord.FxAcceptedIff | backend/chain/canonical.py:388-420 | a spot or forward is recorded if and only if every required term is stated, the settlement fits, the pair is its two currencies, notional and rate are positive, a booked quote notional is a number, and a side is stated |
| ProductRules.FxRecordedIff | backend/chain/canonical.py:388-420 | the same, term by term in the words of the schema |
| ProductRules.FxOptionRecordedIff | backend/chain/canonical.py:348-385 | a currency option is recorded if and only if its style is known and demands are met, settlement, side of the option, exercise, barriers and pair fit, it settles in time, notional and strike are positive, its amounts are numbers, and a side is named |
| ProductRules.CryptoOptionRecordedIff | backend/chain/canonical.py:423-484 | an option on a digital asset is recorded if and only if its style is known and demands are met, exercise and barriers fit, the notional is positive, call or put is said, its amounts are numbers, and a side is named |
| ProductRules.CryptoForwardRecordedIff | backend/chain/canonical.py:423-454 | a forward on a digital asset is recorded if and only if its demands are given, the notional is positive, the price a number, and a side is named |
| ProductRules.InstrumentByItsWord | backend/chain/canonical.py:221-280 | an instrument is known by its word, in any case |
| ProductRules.BlockStates | backend/chain/canonical.py:348-454 | a block names its product by instrument and settlement and states its sides and exactly the terms of the schema |
| ProductRules.TermAsBooked | backend/chain/canonical.py:375-384 | a code is stated in capitals, an amount in the normal form, yes or no by what was booked, anything else as it stands |
| ProductRules.NoIs | backend/chain/canonical.py:380-383 | nothing, no, zero and what is empty count as no |
| ProductRules.PlainTexts | backend/chain/canonical.py:79-84 | digits, with a point among them and a minus before, are a number |
| ProductRules.NoPlainTexts | backend/chain/canonical.py:79-84 | empty text, a lone point, two points, two signs and (here) exponents are not |
| ProductRules.WrittenNumbersRead | backend/chain/canonical.py:79-93 | the text written of a number is read as that number, rounded |
| ProductRules.FxOptionDefaults | backend/chain/canonical.py:457-469 | what a booking leaves open: the exercise of its style, automatic, at ten in New York, barriers watched continuously |
| ProductRecord.AcceptedIsComplete | backend/chain/canonical.py:249-269 | an accepted block states every required term of its instrument and style, and every number in the normal form |
| ProductRecord.QuoteNotionalIsTheProduct | backend/chain/canonical.py:372-373 | a quote notional left out is stated as the exact product of notional and rate, written like any number |
| ProductRecord.TermsNameNoSide | backend/chain/canonical.py:223-336 | no term of any product is named like the product or a side |
| PendingAnchors.FailedIsSound | backend/chain/pending.py:145-186 | when both reads succeed a row is given up only if neither the registry as read nor a mined transaction settles it |
| PendingAnchors.AnchoredIff | backend/chain/pending.py:166-174 | a check answers anchored, at any age, if and only if the registry holds the record or the transaction was mined |
| PendingAnchors.FailedThoughMinedIff | backend/chain/pending.py:145-186 | a row whose transaction was mined is given up if and only if no record was read, the transaction's state could not be read, and the row is past two hours |
| PendingAnchors.FailedThoughSettledIff | backend/chain/pending.py:145-186 | a settled row is given up if and only if neither read showed it and the transaction or the age says so |
| PendingAnchors.FailedDespiteRecordIff | backend/chain/pending.py:153-186 | a row whose record the read could have seen is given up if and only if that read failed and the transaction or the age says so |
| PendingAnchors.FailedDespiteRecord | backend/chain/pending.py:153-186 | such a check exists, half an hour after a send that returned no hash |
| PendingAnchors.FailedRowsWereUnsettled | backend/chain/pending.py:209-255 | over any run, a failed row was given up in one step that touched no trade, and if its reads succeeded the chain did not settle it |
| PendingAnchors.WaitingIsBounded | backend/chain/pending.py:177-178 | no completed check of a row past two hours answers pending |
| PendingAnchors.ConfirmedAtMostOnce | backend/chain/pending.py:103-255 | over any interleaving: one open row and at most one CONFIRMED event a trade, and only where the registry holds the record or the transaction was mined |
| PendingAnchors.ClosedRowsStayClosed | backend/chain/pending.py:209-255 | over any run, a closed row keeps its status and every row its trade, hash and time |
| PendingAnchors.FlipAndEventTogether | backend/chain/pending.py:238-255 | an event is written in the step that flips its row, a row flips without one only when its trade had left PENDING, and giving up touches no trade |
| PendingAnchors.AnchorIsTakenAtOnce | backend/chain/pending.py:221-240 | a step that read the record or the mined transaction closes the row as anchored or goes on to confirm its trade, at any age |
| PendingAnchors.AnchorConfirmsTheTrade | backend/chain/pending.py:209-255 | a call that reads either for an open row of a pending trade confirms the trade in that call, when the transition succeeds |
| PendingAnchors.OldRowsAreDecided | backend/chain/pending.py:209-255 | a completed check of a row past its greatest age closes it or has its commit under way |
| PendingAnchors.CommitConfirmsRegardless | backend/chain/pending.py:238-248 | the commit confirms the trade whatever it became since it was loaded |
| PendingAnchors.ATradeThatLeftIsConfirmed | backend/chain/pending.py:238-248 | a run in which a trade that left PENDING ends confirmed |
| PendingAnchors.CallTakesSteps | backend/chain/pending.py:209-255 | an uninterrupted call is a path of the state machine's steps |
| PendingAnchors.Store.Record | backend/chain/pending.py:103-116 | inserts a row, or refreshes the trade's open one without touching its time |
| PendingAnchors.RecordingRefreshes | backend/chain/pending.py:103-116 | a second send keeps the row and its time, and its transaction when it brings none |
| PendingAnchors.Store.Resolve | backend/chain/pending.py:209-255 | the whole new state and the outcome, for every check and every end of the transition |
| PendingAnchors.Store.OpenRows | backend/chain/pending.py:129-131 | the open rows, each once, oldest first, as many as the limit allows |
| PendingAnchors.Store.ReconcilePending | backend/chain/pending.py:283-303 | resolves exactly those rows, each once and in that order, and counts the outcomes |
| PendingAnchors.PassLeavesOtherRows | backend/chain/pending.py:283-303 | a pass leaves every row it does not resolve as it was |
| EvmSend.EvmBackend.Retry | backend/chain/attestation.py:197-209 | at most four tries, all but the last dropped, the third and fourth on the fallback node |
| EvmSend.EvmBackend.SendLocked | backend/chain/attestation.py:267-320 | whatever the node answers: at most two signatures, the second only after the first one's nonce was refused and the registry held nothing; nothing signed or sent after an acknowledgement; each outcome is explained by the replies it follows from, failures and a nonce taken twice included |
| EvmSend.EvmBackend.TxState | backend/chain/attestation.py:327-345 | each state is what the node answered about the receipt and the transaction, and an unread state is the error it ended with |
| EvmSend.AnchorIsRecorded | backend/chain/attestation.py:347-361 | with truthful nodes an anchor is returned only when the registry holds the record; for terminate, with status Terminated |
| EvmSend.ActiveRecordIsNoTermination | backend/chain/attestation.py:347-361 | a terminate whose registry answers an active record is no anchor by the registry: only Terminated, 3, is |
| EvmSend.NothingWantedIff | backend/chain/attestation.py:347-361 | a read finds nothing wanted exactly when it fails, a terminate reads anything but 3, or anything else reads 0 |
| EvmSend.RefusedIsFree | backend/chain/attestation.py:288-298 | a refused nonce and an empty read-back are what frees a second attempt |
| ChainBudget.BudgetIsOffIff | backend/chain/budget.py:48-54 | nothing is counted if and only if no variable is set to a positive number |
| ChainBudget.DefaultsFollowTheUser | backend/chain/budget.py:38-54 | with the user's cap alone the firm's is three times it and everyone's 200; what cannot be read counts as not set, and a negative number sets no cap |
| ChainBudget.ColleaguesUseUpTheFirm | backend/chain/budget.py:97-141 | different users of a firm, 23 hours ago, use up the firm's cap for another, and free it after 24 hours |
| ChainBudget.Budget.Charge | backend/chain/budget.py:111-150 | refuses exactly when a cap that applies is reached, stores exactly the admitted attempts, and returns the counts |
| ChainBudget.ChargeKeepsCapped | backend/chain/budget.py:97-103 | one admitted attempt keeps every 24-hour window of every scope within its cap, wherever its time falls |
| ChainBudget.EveryWindowIsCapped | backend/chain/budget.py:111-150 | so does any sequence of serialised charges, with timestamps in any order |
| ChainBudget.UnserialisedCappedIff | backend/chain/budget.py:121-128 | two callers admitted on one table keep every cap if and only if each capped window that holds both has room for two |
| ChainBudget.LastAttemptTakenTwice | backend/chain/budget.py:121-128 | with one attempt left, two callers pass the cap together |
| JobQueue.AttemptsAreBoundedAndOwned | backend/jobs/queue.py:98-156 | over any interleaving no job is attempted more than three times, and no attempt number is claimed twice |
| JobQueue.ClaimsUseUpAttempts | backend/jobs/queue.py:98-156 | every claim uses up one of the attempts left, and only a new job adds any |
| JobQueue.ClaimsAreBounded | backend/jobs/queue.py:98-156 | claims plus attempts left is three for each job ever enqueued |
| JobQueue.FinishedJobsStayFinished | backend/jobs/queue.py:123-156 | a finished job is never queued or run again, late reports included |
| JobQueue.OutcomeMayChangeIff | backend/jobs/queue.py:123-132 | the outcome of a finished job can still change if and only if a claim of it has not reported |
| JobQueue.LateReportOverwrites | backend/jobs/queue.py:123-156 | a run in which a job requeued as stale is finished by a second worker and the first one's late report reverses the outcome |
| JobQueue.Queue.EnqueueJob | backend/jobs/queue.py:88-95 | a queued row with no attempts is added and nothing else changes |
| JobQueue.Queue.ClaimJob | backend/jobs/queue.py:98-109 | takes the oldest queued job of the kinds, or none when there is none |
| JobQueue.Queue.RequeueStaleJobs | backend/jobs/queue.py:145-156 | every stale running row is queued again or failed, no other row changes, and the count is returned |
| JobQueue.StaleRowsOnly | backend/jobs/queue.py:145-156 | a row that is not running, or started at or after the cutoff, stays as it was; a stale one is queued again below three attempts and failed at three |
| JobQueue.Loop | backend/worker.py:99-149 | the loop's table is reached by the machine's steps, every job taken is reported, and the delay stays between poll and ten seconds |
| JobQueue.IdleDoubles | backend/worker.py:47-49 | the delay is two seconds after work and doubles while idle, up to ten |
| Market.BucketQuotes | backend/pnl/explain.py:104-117 | the loops compute, as a map, the current curve overridden by the target in the bucket |
| Market.BlendsCompose | backend/pnl/explain.py:141-148 | two buckets that meet blend into one |
| Market.AllBuckets | backend/pnl/explain.py:42 | the four buckets together are the target over the current curve |
| Market.BucketsOfTenors | backend/pnl/explain.py:42 | up to one, five and ten years are the first three buckets, longer the last |
| Market.FirstIsFirst | backend/pnl/market.py:44-56 | a single rate is the first quoted for its tenor |
| Market.SingleReads | backend/pnl/market.py:57-58 | a curve set to one rate reads as that rate, under the kind of its tenor |
| Explain.CashSettled | backend/pnl/explain.py:78-101 | per currency, exactly the payments of the half-open window with their signs |
| Explain.OnePaymentSettles | backend/pnl/explain.py:94-100 | an unsigned payment of a leg we pay goes out; of a leg we receive, or already signed, it is what it says |
| Explain.NothingToSettle | backend/pnl/explain.py:78-95 | a payment without an amount or outside the window settles nothing |
| Explain.OtherSidePays | backend/pnl/explain.py:94-100 | booked from the other side, unsigned payments settle to the opposite |
| Explain.WindowsJoin | backend/pnl/explain.py:78-86 | windows that meet count each payment once |
| Explain.Valuer.Value | backend/pnl/explain.py:64-75 | the memo never changes a value and prices each key once |
| Explain.Run.MoveCurve | backend/pnl/explain.py:133-152 | a curve ends at its final rates, no other curve moves, each change of the market is one row in its place, and the rows account for the change of the mark |
| Explain.SteppedAgreesIff | backend/pnl/explain.py:133-164 | the stepped market reads as today's on the declared curves if and only if each is quoted on both dates or neither and no tenor was dropped |
| Explain.ResidualIsZero | backend/pnl/explain.py:163-166 | then a pricer that reads only those curves leaves nothing over |
| Explain.ResidualIsPossible | backend/pnl/explain.py:163-166 | otherwise some such pricer leaves a residual |
| Explain.ExplainTrade | backend/pnl/explain.py:120-173 | the rows are the roll to today on yesterday's market, the settled cash by currency, one row for each move of one curve in the order rates, spot, points, volatility and in the order of curves and buckets, each the revaluation across that move, and what is left when it exceeds 0.005; in every currency the rows are the change of the mark plus settled cash, within 0.005; exactly, if and only if nothing is left over or the residual is shown |
| Explain.WalkAddsUp | backend/pnl/explain.py:133-164 | the rows of the moves add up to the revaluation from yesterday's market to the stepped one |
| Explain.StepsInOrder | backend/pnl/explain.py:153-162 | rows of rate curves come before spot, spot before the points, the points before the volatility surfaces |
| Explain.StepMovesItsCurve | backend/pnl/explain.py:133-162 | each row is the revaluation across a change of one curve of its bucket, every other curve as it was |
| Explain.ResidualShownIff | backend/pnl/explain.py:163-166 | a residual row appears if and only if more than 0.005 is left |
| Explain.HalfACentIsLost | backend/pnl/explain.py:163-166 | a run whose rows miss half a cent of the change of the mark |
| Explain.NewTrade | backend/pnl/explain.py:176-181 | one row, the mark at the close |
| Explain.UnwoundTrade | backend/pnl/explain.py:184-200 | the rows add up to the fee less the prior mark |
| Explain.AmendedTrade | backend/pnl/explain.py:273-287 | the rows are those of the old terms, attributed as above, and one row for new terms less old on today's market; they lead from the old mark to the new |
| Explain.WholeLife | backend/pnl/report.py:82-98 | over a trade's life from booking through unwind, amended or not, all rows add up per currency to the fee plus the cash, less exactly the cash before the first close and from the last explained close on, within 0.005 a day in the trade's currency and exactly in any other |
| Explain.ConservedIff | backend/pnl/report.py:82-98 | without slack, the rows account for all that cash if and only if what settles before the first close and from the last explained close on comes to nothing |
| Explain.ConservedWithinSlack | backend/pnl/report.py:82-98 | with slack, they do within it when that is nothing, and do not when it is more than twice the slack |
| Explain.LastCouponIsLost | backend/pnl/explain.py:184-200 | a coupon paid on the last explained close is in no row |
| Explain.FirstPaymentIsLost | backend/pnl/explain.py:176-181 | a payment between booking and the first close is in no row |

## Left out

- Bootstrap, FRA and futures quotes: they add pillars before the swaps by one-line formulas; the seed of a run is any such pillar list.
- Bootstrap, holiday calendars and spot lags: spot is an input, and every quote shares it. The year fractions are an input too, so that the results hold for any; `DayCounts` gives the program's.
- OwnDayCount.OwnDayCountRepricesIff: asks that the two day counts not be ACT/ACT and 30/360, of which neither accrues more in every year; `AnnuitiesDecide` covers them.
- DayCounts, names with letters outside ASCII.
- Bootstrap, the library's bound of years 1 to 9999: dates are unbounded.
- BootstrapCurve.EveryQuoteReprices: asks for spot other than 29 February, each whole year quoted once, whole years booked in months under the swap day count, and no two tenors, and no week or day tenor and grid date, on one day, because otherwise a coupon moves or two quotes set one pillar; `AnnualAlwaysRepricesIff`, `TenorReprices`, and `FinalRepricingError` for any item of any run, cover the rest.
- Floating point: all arithmetic is exact; the bond price formula, the forward rate and the space step are inputs.
- Jamshidian's formula, calibration and the other entry points of the pricing module: library or transcendental code.
- SwaptionPricer.PriceSwaptionViaTree: the tolerances of the checks are kept, rounding of the quotient to a step is exact.
- Decimals, exponents outside the context's range (overflow and subnormal numbers) and how a binary float is first written as text.
- Json, UTF-8 encoding, and the hash of the bytes.
- CanonicalRecord, schema version 1, letters outside ASCII in directions, dates other than as ISO text, and names as anything but text.
- CanonicalRecord, custom cashflow amounts and product numbers are decimals or plain decimal text; a number with an exponent or surrounding space is refused here.
- ProductRecord, currency codes and dates that are not text: they are refused here, and read through their text by the program.
- PendingAnchors, the synchronous confirmation in the request and the responses to the caller; the lifecycle transition appends one event and sets the status or rolls back.
- PendingAnchors, an idempotency-key race inside the transition: it rolls back like a failure, but reports the cached result.
- EvmSend, fees and the ceiling (one refusal before anything is asked), signatures, sleeping between tries, and the null backend.
- ChainBudget.EveryWindowIsCapped: covers the stored, serialised attempts; an attempt that could not be stored is kept in memory and not counted.
- JobQueue, progress rows, heartbeats, and a database that fails while an outcome is recorded.
- Explain, the valuation itself: any function of trade, date and market; the currency of a trade does not change; parsing of tenors is an input.
- Explain, a trade booked and unwound between two closes: it is in no report.
- Explain, snapshots by date, the memo's text key (the market itself is the key), greeks, labels and report fields.
