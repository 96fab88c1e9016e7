/** Which bookings of a product give the same block: term by term, in what was booked. */
module ProductBookings {
  import opened DecimalArithmetic
  import opened Decimals
  import opened Json
  import opened Options
  import opened ProductRecord
  import opened RecordFields
  import opened Strings

  // ----- values booked in two ways -----

  /** Two booked values that are written alike: numbers of the same value to 28 digits, a
      number and its own text, and the same of every part. */
  ghost predicate WrittenAlike(v: Raw, w: Raw)
    decreases v
  {
    match v
    case RNull => w.RNull?
    case RBool(b) => w == v
    case RNumber(d) => if w.RNumber? then SameValue(Rounded(d), Rounded(w.d)) else w == RText(NumStr(d))
    case RText(s) => if w.RNumber? then s == NumStr(w.d) else w == v
    case RList(items) =>
      w.RList? && |items| == |w.items| && forall k :: 0 <= k < |items| ==> WrittenAlike(items[k], w.items[k])
    case RDict(m) =>
      w.RDict? && m.Keys == w.entries.Keys && forall k :: k in m ==> WrittenAlike(m[k], w.entries[k])
  }

  lemma {:induction false} WrittenAlikeIff(v: Raw, w: Raw)
    ensures Normalise(v) == Normalise(w) <==> WrittenAlike(v, w)
    decreases v
  {
    hide NumStr, Rounded, SameValue;
    match v
    case RNumber(d) => if w.RNumber? { SameStringIffSameRounding(d, w.d); }
    case RList(items) => if w.RList? { ListsAlikeIff(v, w); }
    case RDict(m) => if w.RDict? { DictsAlikeIff(v, w); }
    case _ =>
  }

  lemma {:induction false} ListsAlikeIff(v: Raw, w: Raw)
    requires v.RList? && w.RList?
    ensures Normalise(v) == Normalise(w) <==> WrittenAlike(v, w)
    decreases v, 0
  {
    var x, y := Normalise(v).items, Normalise(w).items;
    if |v.items| == |w.items| {
      forall k | 0 <= k < |v.items| ensures x[k] == y[k] <==> WrittenAlike(v.items[k], w.items[k]) {
        WrittenAlikeIff(v.items[k], w.items[k]);
      }
    }
  }

  lemma {:induction false} DictsAlikeIff(v: Raw, w: Raw)
    requires v.RDict? && w.RDict?
    ensures Normalise(v) == Normalise(w) <==> WrittenAlike(v, w)
    decreases v, 0
  {
    var x, y := Normalise(v).fields, Normalise(w).fields;
    assert x.Keys == v.entries.Keys && y.Keys == w.entries.Keys;
    if v.entries.Keys == w.entries.Keys {
      forall k | k in v.entries ensures x[k] == y[k] <==> WrittenAlike(v.entries[k], w.entries[k]) {
        WrittenAlikeIff(v.entries[k], w.entries[k]);
      }
    }
  }

  // ----- one term -----

  function Coded(v: Raw): Raw {
    if v.RText? then RText(Upper(v.s)) else v
  }

  /** What a yes or no amounts to, its default included. */
  function FlagOf(plan: Plan, n: string): Option<bool> {
    var v := Get(plan.terms, n);
    if !Absent(v) then Some(Truthy(v))
    else if n == "automatic_exercise" then Some(true)
    else if plan.style == Touch then Some(false)
    else None
  }

  /** Numbers of the same value to 28 digits, or both unstated in the same way. */
  ghost predicate SameAmount(v: Raw, w: Raw) {
    if Absent(v) || Absent(w) then v == w
    else Number(v).Some? && Number(w).Some? && SameValue(Rounded(Number(v).value), Rounded(Number(w).value))
  }

  ghost predicate SameTerm(p: Plan, q: Plan, n: string) {
    var v, w := Get(p.terms, n), Get(q.terms, n);
    match KindOf(p.instrument, n)
    case Flag => FlagOf(p, n) == FlagOf(q, n)
    case Amount => SameAmount(v, w)
    case Code => WrittenAlike(Coded(v), Coded(w))
    case Plain => WrittenAlike(v, w)
  }

  lemma SameTermIff(p: Plan, q: Plan, n: string)
    requires p.instrument == q.instrument && Term(p, n).Ok? && Term(q, n).Ok?
    ensures Term(p, n) == Term(q, n) <==> SameTerm(p, q, n)
  {
    hide KindOf, NumStr, Rounded, SameValue, WrittenAlike, Truthy;
    var v, w := Get(p.terms, n), Get(q.terms, n);
    match KindOf(p.instrument, n)
    case Flag =>
    case Amount => AmountsIff(p, q, n);
    case Code => WrittenAlikeIff(Coded(v), Coded(w));
    case Plain => WrittenAlikeIff(v, w);
  }

  lemma AmountsIff(p: Plan, q: Plan, n: string)
    requires p.instrument == q.instrument && Term(p, n).Ok? && Term(q, n).Ok? && KindOf(p.instrument, n) == Amount
    ensures Term(p, n) == Term(q, n) <==> SameAmount(Get(p.terms, n), Get(q.terms, n))
  {
    hide KindOf, NumStr, Rounded, SameValue, NormalForm;
    var v, w := Get(p.terms, n), Get(q.terms, n);
    if Number(v).Some? { WrittenIsNotEmpty(Number(v).value); }
    if Number(w).Some? { WrittenIsNotEmpty(Number(w).value); }
    if Number(v).Some? && Number(w).Some? { SameStringIffSameRounding(Number(v).value, Number(w).value); }
  }

  lemma WrittenIsNotEmpty(d: Decimal)
    ensures NumStr(d) != ""
  {
    hide NumStr;
    NumStrIsNormal(d);
  }

  // ----- all of them -----

  /** The plans state the same terms: two digital-asset options do when both are European or
      neither is. */
  predicate SameList(p: Plan, q: Plan) {
    p.instrument == CryptoOption ==> (p.style == European <==> q.style == European)
  }

  lemma SameListIff(p: Plan, q: Plan)
    requires p.instrument == q.instrument
    ensures SameList(p, q) <==>
      forall n :: n in TermsOf(p.instrument, p.style) <==> n in TermsOf(q.instrument, q.style)
  {
    if p.instrument == CryptoOption {
      TouchIsExtra(p.style);
      TouchIsExtra(q.style);
    }
  }

  lemma TouchIsExtra(style: Style)
    ensures "touch_type" in TermsOf(CryptoOption, style) <==> style != European
  {
    assert "touch_type" !in CRYPTO_TERMS && "touch_type" !in CRYPTO_OPTION_TERMS;
  }

  /** The same product, booked in two ways. */
  ghost predicate SameBooking(p: Plan, q: Plan) {
    && p.instrument == q.instrument && SameList(p, q)
    && forall n :: n in TermsOf(p.instrument, p.style) ==> SameTerm(p, q, n)
  }

  lemma SameStatedIff(p: Plan, q: Plan)
    requires p.instrument == q.instrument
    requires StateTerms(p, TermsOf(p.instrument, p.style)).Ok? && StateTerms(q, TermsOf(q.instrument, q.style)).Ok?
    ensures StateTerms(p, TermsOf(p.instrument, p.style)) == StateTerms(q, TermsOf(q.instrument, q.style)) <==> SameBooking(p, q)
  {
    hide Term, SameTerm, SameList, TermsOf, StateTerms;
    var names, names' := TermsOf(p.instrument, p.style), TermsOf(q.instrument, q.style);
    var x, y := StateTerms(p, names).value, StateTerms(q, names').value;
    StatedIs(p, names);
    StatedIs(q, names');
    SameListIff(p, q);
    if SameList(p, q) {
      forall n | n in names ensures x[n] == y[n] <==> SameTerm(p, q, n) {
        SameTermIff(p, q, n);
      }
      assert forall n :: n in x <==> n in y;
      if SameBooking(p, q) { assert x == y; }
    }
  }

  // ----- the name of the product -----

  function NameOf(i: Instrument, nonDeliverable: bool): string {
    match i
    case FxOption => if nonDeliverable then "FX_NDO" else "FX_OPTION"
    case CryptoOption => "NDO"
    case CryptoForward => "NDF"
    case FxSpot => "FX_SPOT"
    case _ => if nonDeliverable then "FX_NDF" else "FX_FORWARD"
  }

  /** The product is named by the instrument and its settlement. */
  ghost predicate Named(i: Instrument, plan: Plan) {
    && plan.instrument == i && plan.product == NameOf(i, NonDeliverable(plan.terms))
    && (OnCurrencies(i) ==> Get(plan.terms, "settlement_type").RText?)
  }

  lemma SettlementStands(terms: Fields, base: Decimal, rate: Decimal)
    ensures Get(QuoteNotional(terms, base, rate), "settlement_type") == Get(terms, "settlement_type")
  {
    hide Rounded, Times;
    assert "settlement_type" != "quote_notional";
  }

  lemma FxNamed(i: Instrument, terms: Fields)
    requires FxPlan(i, terms).Ok? && (i == FxSpot || i == FxForward || i == Ndf)
    ensures Named(i, FxPlan(i, terms).value)
  {
    hide Absent, Missing, Required, PairMatches, NumberAt, Positive, QuoteNotional;
    SettlementStands(terms, NumberAt(terms, "base_notional").value, NumberAt(terms, "forward_rate").value);
  }

  lemma FxOptionNamed(booked: Fields)
    requires FxOptionPlan(booked).Ok?
    ensures Named(FxOption, FxOptionPlan(booked).value)
  {
    hide Absent, Missing, Required, PairMatches, NumberAt, Positive, QuoteNotional, StyleChecks, FxOptionTerms, StyleOf, NotBefore;
    var terms := FxOptionTerms(booked, StyleOf(Get(booked, "style")).value);
    if !Absent(Get(terms, "strike")) {
      SettlementStands(terms, NumberAt(terms, "base_notional").value, NumberAt(terms, "strike").value);
    }
  }

  lemma PlanNamed(i: Instrument, terms: Fields)
    requires PlanOf(i, terms).Ok?
    ensures Named(i, PlanOf(i, terms).value)
  {
    hide Absent, Missing, StyleChecks, StyleDefaults, StyleOf, FxPlan, FxOptionPlan, NonDeliverable, Required;
    match i
    case FxOption => FxOptionNamed(terms);
    case CryptoOption =>
    case CryptoForward =>
    case _ => FxNamed(i, terms);
  }

  lemma SettlementIsStated(i: Instrument, style: Style)
    requires OnCurrencies(i)
    ensures "settlement_type" in TermsOf(i, style) && KindOf(i, "settlement_type") == Code
  {
  }

  /** Bookings that agree term by term agree on the product's name. */
  lemma SameName(i: Instrument, p: Plan, q: Plan)
    requires Named(i, p) && Named(i, q) && SameBooking(p, q)
    ensures p.product == q.product
  {
    hide TermsOf, KindOf, SameList;
    if OnCurrencies(i) {
      SettlementIsStated(i, p.style);
      assert SameTerm(p, q, "settlement_type");
    }
  }

  /** Two bookings of an instrument give the same block exactly when they name the same buyer
      and seller and agree on every term the product states, in what was booked: codes but
      for their case, numbers to 28 digits, yes or no by what they amount to. */
  lemma SameBookingIff(i: Instrument, terms: Fields, direction: Raw, own: string, cp: string,
      terms': Fields, direction': Raw, own': string, cp': string)
    requires ProductV2(i, terms, direction, own, cp).Ok? && ProductV2(i, terms', direction', own', cp').Ok?
    ensures ProductV2(i, terms, direction, own, cp) == ProductV2(i, terms', direction', own', cp')
      <==> (SameBooking(PlanOf(i, terms).value, PlanOf(i, terms').value)
        && BuyerFirst(direction, own, cp) == BuyerFirst(direction', own', cp'))
  {
    hide PlanOf, StateTerms, BuyerFirst, LateChecks, Block, TermsOf, SameBooking, Named;
    var p, q := PlanOf(i, terms).value, PlanOf(i, terms').value;
    SameProductIff(i, terms, direction, own, cp, i, terms', direction', own', cp');
    PlanNamed(i, terms);
    PlanNamed(i, terms');
    NamedAs(i, p);
    NamedAs(i, q);
    SameStatedIff(p, q);
    if SameBooking(p, q) { SameName(i, p, q); }
  }

  lemma NamedAs(i: Instrument, p: Plan)
    requires Named(i, p)
    ensures p.instrument == i
  {
  }
}
