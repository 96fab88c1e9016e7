/** The product block of a record: currency and digital-asset spots, forwards and options,
    stated with buyer and seller named by LEI. */
module ProductRecord {
  import opened DecimalArithmetic
  import opened Decimals
  import opened Json
  import opened Options
  import opened RecordFields
  import opened Strings

  datatype Instrument = FxSpot | FxForward | Ndf | FxOption | CryptoOption | CryptoForward

  datatype Style = European | American | Digital | Barrier | DoubleBarrier | Touch

  function InstrumentOf(v: Raw): Option<Instrument> {
    if Says(v, {"CRYPTO_OPTION"}) then Some(CryptoOption)
    else if Says(v, {"CRYPTO_FORWARD"}) then Some(CryptoForward)
    else if Says(v, {"FX_SPOT"}) then Some(FxSpot)
    else if Says(v, {"FX_FORWARD"}) then Some(FxForward)
    else if Says(v, {"NDF"}) then Some(Ndf)
    else if Says(v, {"FX_OPTION"}) then Some(FxOption)
    else None
  }

  /** What the record writes about the instrument decides which product it is. */
  lemma InstrumentIsWritten(v: Raw, w: Raw)
    requires Normalise(v) == Normalise(w)
    ensures InstrumentOf(v) == InstrumentOf(w)
  {
    hide NumStr;
    if v.RNumber? && w.RText? { NumberIsNoInstrument(v.d); }
    if w.RNumber? && v.RText? { NumberIsNoInstrument(w.d); }
  }

  lemma NumberIsNoInstrument(d: Decimal)
    ensures InstrumentOf(RText(NumStr(d))) == None
  {
    NumStrIsNormal(d);
    var s := NumStr(d);
    hide NumStr;
    StartsAsNumber(s);
    assert Upper(s)[0] == s[0];
  }

  lemma StartsAsNumber(s: string)
    requires NormalForm(s)
    ensures s != "" && (s[0] == '-' || '0' <= s[0] <= '9')
  {
    if s[0] != '-' && '.' in s {
      var f := Fraction(s);
      assert s[..|s| - |f| - 1][0] == s[0];
    }
  }

  // ----- the terms of each product -----

  const FX_TERMS: seq<string> := [
    "currency_pair", "base_currency", "quote_currency", "base_notional", "quote_notional", "forward_rate",
    "value_date", "settlement_type", "settlement_currency", "fixing_source", "fixing_date", "calculation_agent"]

  const FX_REQUIRED: seq<string> := [
    "currency_pair", "base_currency", "quote_currency", "base_notional", "forward_rate", "value_date", "settlement_type"]

  const FX_NDF_REQUIRED: seq<string> := ["settlement_currency", "fixing_source", "fixing_date"]

  const FXO_TERMS: seq<string> := [
    "currency_pair", "base_currency", "quote_currency", "option_type", "exercise_style", "base_notional",
    "quote_notional", "strike", "expiry_date", "expiry_time", "settlement_date", "settlement_type",
    "settlement_currency", "fixing_source", "premium_amount", "premium_currency", "premium_payment_date",
    "automatic_exercise", "calculation_agent"]

  const STYLE_TERMS: seq<string> := [
    "style", "payout", "payout_currency", "barrier_type", "barrier", "lower", "upper", "rebate", "touch_type",
    "pay_at_hit", "barrier_monitoring", "barrier_determination_agent"]

  const FXO_REQUIRED: seq<string> := [
    "currency_pair", "base_currency", "quote_currency", "option_type", "base_notional", "expiry_date", "settlement_date",
    "settlement_type", "premium_amount", "premium_currency", "premium_payment_date"]

  const FXO_NDO_REQUIRED: seq<string> := ["settlement_currency", "fixing_source"]

  const CRYPTO_TERMS: seq<string> := [
    "digital_asset", "notional_amount", "valuation_date", "valuation_time", "settlement_date", "settlement_currency",
    "settlement_price_source", "calculation_agent", "disruption_fallback"]

  const CRYPTO_OPTION_TERMS: seq<string> := [
    "option_type", "exercise_style", "strike_price", "strike_currency", "expiration_date", "expiration_time",
    "premium_amount", "premium_currency", "premium_payment_date", "automatic_exercise"]

  const CRYPTO_FORWARD_TERMS: seq<string> := ["forward_price", "price_currency"]

  const CRYPTO_OPTION_REQUIRED: seq<string> := [
    "digital_asset", "notional_amount", "option_type", "exercise_style", "expiration_date", "valuation_date",
    "settlement_date", "settlement_currency", "settlement_price_source", "premium_amount", "premium_currency",
    "premium_payment_date"]

  const CRYPTO_FORWARD_REQUIRED: seq<string> := [
    "digital_asset", "notional_amount", "forward_price", "price_currency", "valuation_date", "settlement_date",
    "settlement_currency", "settlement_price_source"]

  /** Which terms a product states, in the order it states them. */
  function TermsOf(i: Instrument, style: Style): seq<string> {
    match i
    case FxOption => FXO_TERMS + STYLE_TERMS
    case CryptoOption => CRYPTO_TERMS + CRYPTO_OPTION_TERMS + (if style == European then [] else STYLE_TERMS)
    case CryptoForward => CRYPTO_TERMS + CRYPTO_FORWARD_TERMS
    case _ => FX_TERMS
  }

  /** Which of them are codes, stated in upper case. */
  function Codes(i: Instrument): set<string> {
    match i
    case FxOption =>
      {"currency_pair", "base_currency", "quote_currency", "option_type", "exercise_style", "settlement_type",
       "settlement_currency", "premium_currency", "style", "payout_currency", "barrier_type", "touch_type", "barrier_monitoring"}
    case CryptoOption =>
      {"digital_asset", "option_type", "exercise_style", "settlement_currency", "strike_currency", "premium_currency",
       "price_currency", "style", "payout_currency", "barrier_type", "touch_type", "barrier_monitoring"}
    case CryptoForward => {"digital_asset", "settlement_currency", "price_currency"}
    case _ => {"currency_pair", "base_currency", "quote_currency", "settlement_type", "settlement_currency"}
  }

  /** Which of them are numbers, whether booked as numbers or as text. */
  function Numbers(i: Instrument): set<string> {
    match i
    case FxOption =>
      {"base_notional", "quote_notional", "strike", "premium_amount", "payout", "barrier", "lower", "upper", "rebate"}
    case CryptoOption =>
      {"notional_amount", "strike_price", "premium_amount", "forward_price", "payout", "barrier", "lower", "upper", "rebate"}
    case CryptoForward => {"notional_amount", "forward_price"}
    case _ => {"base_notional", "quote_notional", "forward_rate"}
  }

  /** Which of them are yes or no. */
  function Flags(i: Instrument): set<string> {
    match i
    case FxOption => {"automatic_exercise", "pay_at_hit"}
    case CryptoOption => {"pay_at_hit"}
    case _ => {}
  }

  datatype Kind = Flag | Amount | Code | Plain

  function KindOf(i: Instrument, n: string): Kind {
    if n in Flags(i) then Flag else if n in Numbers(i) then Amount else if n in Codes(i) then Code else Plain
  }

  // ----- reading one term -----

  predicate Absent(v: Raw) {
    v == RNull || v == RText("")
  }

  predicate Truthy(v: Raw) {
    match v
    case RNull => false
    case RBool(b) => b
    case RNumber(d) => d.coefficient != 0
    case RText(s) => s != ""
    case RList(items) => items != []
    case RDict(m) => m != map[]
  }

  function Number(v: Raw): Option<Decimal> {
    match v
    case RNumber(d) => Some(d)
    case RText(s) => if IsPlain(s) then Some(Parse(s)) else None
    case _ => None
  }

  function NumberAt(terms: Fields, n: string): Result<Decimal> {
    match Number(Get(terms, n))
    case None => Err(NotANumber(n))
    case Some(d) => Ok(d)
  }

  /** The required names that are not stated, in order. */
  function Missing(terms: Fields, names: seq<string>): seq<string> {
    if names == [] then []
    else
      var n := names[|names| - 1];
      Missing(terms, names[..|names| - 1]) + (if Absent(Get(terms, n)) then [n] else [])
  }

  function Require(terms: Fields, names: seq<string>): Check {
    Need(Missing(terms, names) == [], NotStated(Missing(terms, names)))
  }

  function Default(terms: Fields, n: string, v: Raw): Fields {
    if n in terms then terms else terms[n := v]
  }

  /** The pair is the base currency followed by the quote currency. */
  predicate PairMatches(terms: Fields) {
    var p, b, q := Get(terms, "currency_pair"), Get(terms, "base_currency"), Get(terms, "quote_currency");
    p.RText? && b.RText? && q.RText? && Upper(p.s) == Upper(b.s) + Upper(q.s)
  }

  predicate NotBefore(a: Raw, b: Raw) {
    a.RText? && b.RText? && Leq(b.s, a.s)
  }

  // ----- styles of an option -----

  function StyleOf(v: Raw): Result<Style> {
    if !Truthy(v) || Says(v, {"EUROPEAN"}) then Ok(European)
    else if Says(v, {"AMERICAN"}) then Ok(American)
    else if Says(v, {"DIGITAL"}) then Ok(Digital)
    else if Says(v, {"BARRIER"}) then Ok(Barrier)
    else if Says(v, {"DOUBLE_BARRIER"}) then Ok(DoubleBarrier)
    else if Says(v, {"TOUCH"}) then Ok(Touch)
    else Err(BadStyle)
  }

  function StyleName(style: Style): string {
    match style
    case European => "EUROPEAN"
    case American => "AMERICAN"
    case Digital => "DIGITAL"
    case Barrier => "BARRIER"
    case DoubleBarrier => "DOUBLE_BARRIER"
    case Touch => "TOUCH"
  }

  function Exercise(style: Style): string {
    if style == American then "AMERICAN" else "EUROPEAN"
  }

  /** What the style asks for beyond the product; the strike is named differently. */
  function StyleRequired(style: Style, strike: seq<string>): seq<string> {
    match style
    case European => strike
    case American => strike
    case Digital => strike + ["payout", "payout_currency"]
    case Barrier => strike + ["barrier_type", "barrier"]
    case DoubleBarrier => strike + ["barrier_type", "lower", "upper"]
    case Touch => ["payout", "payout_currency", "touch_type"]
  }

  function StyleDefaults(terms: Fields, style: Style, fx: bool): Fields {
    var styled := terms["style" := RText(StyleName(style))];
    var exercised := Default(styled, "exercise_style", RText(Exercise(style)));
    var automatic := if fx then Default(exercised, "automatic_exercise", RBool(true)) else exercised;
    if style == Barrier || style == DoubleBarrier || style == Touch
    then Default(automatic, "barrier_monitoring", RText("CONTINUOUS"))
    else automatic
  }

  /** The style's own rules, the first broken one as the error. */
  function StyleChecks(terms: Fields, style: Style): Check {
    if !Says(Get(terms, "exercise_style"), {Exercise(style)}) then Fail(BadExerciseStyle)
    else
      match style
      case Barrier =>
        Need(Says(Get(terms, "barrier_type"), {"UP_IN", "UP_OUT", "DOWN_IN", "DOWN_OUT"}), BadBarrierType)
      case DoubleBarrier =>
        if !Says(Get(terms, "barrier_type"), {"KNOCK_IN", "KNOCK_OUT"}) then Fail(BadBarrierType)
        else BoundsCheck(NumberAt(terms, "lower"), NumberAt(terms, "upper"))
      case Touch =>
        Need(Says(Get(terms, "touch_type"), {"ONE_TOUCH", "NO_TOUCH", "DOUBLE_ONE_TOUCH", "DOUBLE_NO_TOUCH"}), BadTouchType)
      case _ => Pass
  }

  function BoundsCheck(lower: Result<Decimal>, upper: Result<Decimal>): Check {
    if lower.Err? then Fail(lower.error)
    else if upper.Err? then Fail(upper.error)
    else Need(Less(lower.value, upper.value), BadBarriers)
  }

  /** What both parties must state. */
  function Required(i: Instrument, style: Style, nonDeliverable: bool): seq<string> {
    match i
    case FxOption => FXO_REQUIRED + StyleRequired(style, ["strike"]) + if nonDeliverable then FXO_NDO_REQUIRED else []
    case CryptoOption => CRYPTO_OPTION_REQUIRED + StyleRequired(style, ["strike_price", "strike_currency"])
    case CryptoForward => CRYPTO_FORWARD_REQUIRED
    case _ => FX_REQUIRED + if nonDeliverable || i == Ndf then FX_NDF_REQUIRED else []
  }

  predicate NonDeliverable(terms: Fields) {
    Says(Get(terms, "settlement_type"), {"NON_DELIVERABLE"})
  }

  // ----- what a product will state, once the sides are known -----

  datatype Plan = Plan(product: string, instrument: Instrument, style: Style, terms: Fields)

  /** The quote notional both sides agree on, when the booker leaves it out. */
  function QuoteNotional(terms: Fields, base: Decimal, rate: Decimal): Fields {
    if Absent(Get(terms, "quote_notional")) then terms["quote_notional" := RNumber(Rounded(Times(base, rate)))] else terms
  }

  const SETTLEMENTS: set<string> := {"DELIVERABLE", "NON_DELIVERABLE"}
  const CALL_OR_PUT: set<string> := {"CALL", "PUT"}

  function FxPlan(i: Instrument, terms: Fields): Result<Plan> {
    var ndf := NonDeliverable(terms);
    :- Require(terms, Required(i, European, ndf));
    :- Need(Says(Get(terms, "settlement_type"), SETTLEMENTS), BadSettlementType);
    :- Need(i == Ndf ==> ndf, NdfMustNotDeliver);
    :- Need(PairMatches(terms), BadPair);
    var base :- NumberAt(terms, "base_notional");
    :- Need(Positive(base), NotPositive);
    var rate :- NumberAt(terms, "forward_rate");
    :- Need(Positive(rate), NotPositive);
    Ok(Plan(if i == FxSpot then "FX_SPOT" else if ndf then "FX_NDF" else "FX_FORWARD", i, European, QuoteNotional(terms, base, rate)))
  }

  /** The terms an FX option's plan is made from, defaults included. */
  function FxOptionTerms(booked: Fields, style: Style): Fields {
    Default(StyleDefaults(booked, style, true), "expiry_time", RText("10:00 New York"))
  }

  function FxOptionPlan(booked: Fields): Result<Plan> {
    var style :- StyleOf(Get(booked, "style"));
    var terms := FxOptionTerms(booked, style);
    var ndo := NonDeliverable(terms);
    :- Require(terms, Required(FxOption, style, ndo));
    :- Need(Says(Get(terms, "settlement_type"), SETTLEMENTS), BadSettlementType);
    :- Need(Says(Get(terms, "option_type"), CALL_OR_PUT), BadOptionType);
    :- StyleChecks(terms, style);
    :- Need(PairMatches(terms), BadPair);
    var base :- NumberAt(terms, "base_notional");
    :- Need(Positive(base), NotPositive);
    var full :- WithStrike(terms, base);
    :- Need(NotBefore(Get(terms, "settlement_date"), Get(terms, "expiry_date")), BadDates);
    Ok(Plan(if ndo then "FX_NDO" else "FX_OPTION", FxOption, style, full))
  }

  function WithStrike(terms: Fields, base: Decimal): Result<Fields> {
    if Absent(Get(terms, "strike")) then Ok(terms)
    else
      var strike :- NumberAt(terms, "strike");
      :- Need(Positive(strike), NotPositive);
      Ok(QuoteNotional(terms, base, strike))
  }

  function CryptoOptionPlan(booked: Fields): Result<Plan> {
    var style :- StyleOf(Get(booked, "style"));
    var terms := StyleDefaults(booked, style, false);
    :- Require(terms, Required(CryptoOption, style, false));
    :- StyleChecks(terms, style);
    Ok(Plan("NDO", CryptoOption, style, terms))
  }

  function PlanOf(i: Instrument, terms: Fields): Result<Plan> {
    match i
    case FxOption => FxOptionPlan(terms)
    case CryptoOption => CryptoOptionPlan(terms)
    case CryptoForward =>
      :- Require(terms, Required(CryptoForward, European, false));
      Ok(Plan("NDF", CryptoForward, European, terms))
    case _ => FxPlan(i, terms)
  }

  // ----- the block -----

  function BuyerFirst(direction: Raw, own: string, cp: string): Result<Sides> {
    SidesOf(direction, own, cp, BUYS, SELLS)
  }

  /** What an unstated yes or no means: exercise is automatic, a touch pays at expiry. */
  function Unflagged(plan: Plan, n: string): Value {
    if n == "automatic_exercise" then Bool(true) else if plan.style == Touch then Bool(false) else Null
  }

  function Term(plan: Plan, n: string): Result<Value> {
    var v := Get(plan.terms, n);
    match KindOf(plan.instrument, n)
    case Flag => Ok(if Absent(v) then Unflagged(plan, n) else Bool(Truthy(v)))
    case Amount =>
      if Absent(v) then Ok(Normalise(v))
      else
        var d :- NumberAt(plan.terms, n); Ok(Str(NumStr(d)))
    case Code => Ok(if v.RText? then Str(Upper(v.s)) else Normalise(v))
    case Plain => Ok(Normalise(v))
  }

  function StateTerms(plan: Plan, names: seq<string>): Result<map<string, Value>> {
    if names == [] then Ok(map[])
    else
      var stated :- StateTerms(plan, names[..|names| - 1]);
      var v :- Term(plan, names[|names| - 1]);
      Ok(stated[names[|names| - 1] := v])
  }

  /** What is checked only after the terms are stated. */
  function LateChecks(plan: Plan): Result<()> {
    if plan.instrument != CryptoOption && plan.instrument != CryptoForward then Ok(())
    else
      var notional :- NumberAt(plan.terms, "notional_amount");
      :- Need(Positive(notional), NotPositive);
      :- Need(plan.instrument == CryptoOption ==> Says(Get(plan.terms, "option_type"), CALL_OR_PUT), BadOptionType);
      Ok(())
  }

  function Block(product: string, s: Sides, stated: map<string, Value>): Value {
    Obj(map["product" := Str(product), "buyer" := Str(s.first), "seller" := Str(s.second)] + stated)
  }

  function ProductV2(i: Instrument, terms: Fields, direction: Raw, own: string, cp: string): Result<Value> {
    Finish(PlanOf(i, terms), BuyerFirst(direction, own, cp))
  }

  function Finish(p: Result<Plan>, s: Result<Sides>): Result<Value> {
    match p
    case Err(e) => Err(e)
    case Ok(plan) =>
      match s
      case Err(e) => Err(e)
      case Ok(sides) => Carry(plan, sides)
  }

  function Carry(plan: Plan, s: Sides): Result<Value> {
    var stated :- StateTerms(plan, TermsOf(plan.instrument, plan.style));
    var _ :- LateChecks(plan);
    Ok(Block(plan.product, s, stated))
  }

  /** The loop over the terms. */
  method BuildTerms(plan: Plan, names: seq<string>) returns (r: Result<map<string, Value>>)
    ensures r == StateTerms(plan, names)
  {
    var out: map<string, Value> := map[];
    var n := 0;
    while n < |names|
      invariant 0 <= n <= |names| && StateTerms(plan, names[..n]) == Ok(out)
    {
      assert names[..n + 1][..n] == names[..n];
      var v := Term(plan, names[n]);
      if v.Err? {
        StatingStops(plan, names, n + 1);
        return Err(v.error);
      }
      out := out[names[n] := v.value];
      n := n + 1;
    }
    assert names[..n] == names;
    r := Ok(out);
  }

  lemma {:induction false} StatingStops(plan: Plan, names: seq<string>, n: nat)
    requires n <= |names| && StateTerms(plan, names[..n]).Err?
    ensures StateTerms(plan, names) == Err(StateTerms(plan, names[..n]).error)
  {
    if n < |names| {
      assert names[..|names| - 1][..n] == names[..n];
      StatingStops(plan, names[..|names| - 1], n);
    } else {
      assert names[..n] == names;
    }
  }

  method BuildProductV2(i: Instrument, terms: Fields, direction: Raw, own: string, cp: string) returns (r: Result<Value>)
    ensures r == ProductV2(i, terms, direction, own, cp)
  {
    hide PlanOf, BuyerFirst, LateChecks, Block, TermsOf, StateTerms;
    var plan :- PlanOf(i, terms);
    var s :- BuyerFirst(direction, own, cp);
    var stated :- BuildTerms(plan, TermsOf(plan.instrument, plan.style));
    var _ :- LateChecks(plan);
    r := Ok(Block(plan.product, s, stated));
  }

  // ----- what a block says, and what it leaves unsaid -----

  /** The terms a product states, whoever books it. */
  function StatedTerms(i: Instrument, terms: Fields): Result<map<string, Value>> {
    var plan :- PlanOf(i, terms);
    StateTerms(plan, TermsOf(plan.instrument, plan.style))
  }

  function ProductName(i: Instrument, terms: Fields): Result<string> {
    var plan :- PlanOf(i, terms);
    Ok(plan.product)
  }

  lemma {:induction false} StatedIs(plan: Plan, names: seq<string>)
    requires StateTerms(plan, names).Ok?
    ensures forall n :: n in StateTerms(plan, names).value <==> n in names
    ensures forall n :: n in names ==> Term(plan, n) == Ok(StateTerms(plan, names).value[n])
  {
    hide Term;
    if names != [] {
      StatedIs(plan, names[..|names| - 1]);
      assert names == names[..|names| - 1] + [names[|names| - 1]];
    }
  }

  predicate NamesASide(n: string) {
    n == "product" || n == "buyer" || n == "seller"
  }

  lemma FxNamesNoSide()
    ensures forall n :: n in FX_TERMS ==> !NamesASide(n)
  {
  }

  lemma FxOptionNamesNoSide()
    ensures forall n :: n in FXO_TERMS ==> !NamesASide(n)
  {
  }

  lemma StyleNamesNoSide()
    ensures forall n :: n in STYLE_TERMS ==> !NamesASide(n)
  {
  }

  lemma CryptoNamesNoSide()
    ensures forall n :: n in CRYPTO_TERMS + CRYPTO_FORWARD_TERMS ==> !NamesASide(n)
  {
  }

  lemma CryptoOptionNamesNoSide()
    ensures forall n :: n in CRYPTO_OPTION_TERMS ==> !NamesASide(n)
  {
  }

  /** No term of any product is named like the product or one of its sides. */
  lemma TermsNameNoSide(i: Instrument, style: Style)
    ensures forall n :: n in TermsOf(i, style) ==> !NamesASide(n)
  {
    hide NamesASide;
    FxNamesNoSide();
    FxOptionNamesNoSide();
    StyleNamesNoSide();
    CryptoNamesNoSide();
    CryptoOptionNamesNoSide();
  }

  lemma BlockIff(p: string, s: Sides, m: map<string, Value>, p': string, s': Sides, m': map<string, Value>)
    requires forall n :: n in m ==> !NamesASide(n)
    requires forall n :: n in m' ==> !NamesASide(n)
    ensures Block(p, s, m) == Block(p', s', m') <==> p == p' && s == s' && m == m'
  {
    var a, b := Block(p, s, m).fields, Block(p', s', m').fields;
    assert NamesASide("product") && NamesASide("buyer") && NamesASide("seller");
    assert a["product"] == Str(p) && b["product"] == Str(p');
    assert a["buyer"] == Str(s.first) && b["buyer"] == Str(s'.first);
    assert a["seller"] == Str(s.second) && b["seller"] == Str(s'.second);
    if a == b {
      forall n ensures n in m <==> n in m' {
        assert n in m ==> n in a && !NamesASide(n);
        assert n in m' ==> n in b && !NamesASide(n);
      }
      forall n | n in m ensures m[n] == m'[n] {
        assert a[n] == m[n] && b[n] == m'[n];
      }
    }
  }

  /** Two product blocks are equal exactly when product, stated terms and sides are. */
  lemma SameProductIff(i: Instrument, terms: Fields, direction: Raw, own: string, cp: string,
      j: Instrument, terms': Fields, direction': Raw, own': string, cp': string)
    requires ProductV2(i, terms, direction, own, cp).Ok? && ProductV2(j, terms', direction', own', cp').Ok?
    ensures ProductV2(i, terms, direction, own, cp) == ProductV2(j, terms', direction', own', cp')
      <==> (ProductName(i, terms) == ProductName(j, terms') && StatedTerms(i, terms) == StatedTerms(j, terms')
        && BuyerFirst(direction, own, cp) == BuyerFirst(direction', own', cp'))
  {
    hide PlanOf, StateTerms, BuyerFirst, LateChecks, Block, TermsOf, NamesASide;
    var plan, plan' := PlanOf(i, terms).value, PlanOf(j, terms').value;
    var names, names' := TermsOf(plan.instrument, plan.style), TermsOf(plan'.instrument, plan'.style);
    TermsNameNoSide(plan.instrument, plan.style);
    TermsNameNoSide(plan'.instrument, plan'.style);
    StatedIs(plan, names);
    StatedIs(plan', names');
    BlockIff(plan.product, BuyerFirst(direction, own, cp).value, StateTerms(plan, names).value,
      plan'.product, BuyerFirst(direction', own', cp').value, StateTerms(plan', names').value);
  }

  // ----- spelling -----

  /** Two bookings of one term: a code in either case, a number written in any way. */
  ghost predicate AlikeTerm(kind: Kind, v: Raw, w: Raw) {
    || v == w
    || (kind == Amount && Number(v).Some? && Number(w).Some? && SameValue(Number(v).value, Number(w).value))
    || (kind == Code && v.RText? && w.RText? && Upper(v.s) == Upper(w.s))
  }

  ghost predicate Alike(i: Instrument, a: Fields, b: Fields) {
    forall n :: (n in a <==> n in b) && AlikeTerm(KindOf(i, n), Get(a, n), Get(b, n))
  }

  lemma AlikeAt(i: Instrument, a: Fields, b: Fields, n: string)
    requires Alike(i, a, b)
    ensures (n in a <==> n in b) && AlikeTerm(KindOf(i, n), Get(a, n), Get(b, n))
  {
  }

  lemma AbsentAlike(kind: Kind, v: Raw, w: Raw)
    requires AlikeTerm(kind, v, w)
    ensures Absent(v) <==> Absent(w)
  {
    assert !IsPlain("");
  }

  lemma SaysAlike(kind: Kind, v: Raw, w: Raw, words: set<string>)
    requires AlikeTerm(kind, v, w) && kind != Amount
    ensures Says(v, words) <==> Says(w, words)
  {
  }

  lemma NumberAlike(kind: Kind, v: Raw, w: Raw)
    requires AlikeTerm(kind, v, w) && kind != Code
    ensures Number(v).Some? <==> Number(w).Some?
    ensures Number(v).Some? ==> SameValue(Number(v).value, Number(w).value)
  {
    if v == w && Number(v).Some? { SameAsItself(Number(v).value); }
  }

  lemma {:induction false} MissingAlike(i: Instrument, a: Fields, b: Fields, names: seq<string>)
    requires Alike(i, a, b)
    ensures Missing(a, names) == Missing(b, names)
  {
    if names != [] {
      hide Alike, Absent;
      var n := names[|names| - 1];
      MissingAlike(i, a, b, names[..|names| - 1]);
      AlikeAt(i, a, b, n);
      AbsentAlike(KindOf(i, n), Get(a, n), Get(b, n));
    }
  }

  lemma SetAlike(i: Instrument, a: Fields, b: Fields, n: string, v: Raw, w: Raw)
    requires Alike(i, a, b) && AlikeTerm(KindOf(i, n), v, w)
    ensures Alike(i, a[n := v], b[n := w])
  {
    hide AlikeTerm, KindOf;
  }

  lemma DefaultAlike(i: Instrument, a: Fields, b: Fields, n: string, v: Raw)
    requires Alike(i, a, b)
    ensures Alike(i, Default(a, n, v), Default(b, n, v))
  {
    AlikeAt(i, a, b, n);
    if n !in a { SetAlike(i, a, b, n, v, v); }
  }

  const WORDS: set<string> := {
    "settlement_type", "option_type", "exercise_style", "barrier_type", "touch_type", "style", "currency_pair",
    "base_currency", "quote_currency"}

  const AMOUNTS: set<string> := {
    "base_notional", "quote_notional", "forward_rate", "strike", "lower", "upper", "notional_amount"}

  /** What is compared as words is no number, what is compared as numbers no code. */
  lemma WordsAreNoAmounts(i: Instrument, n: string)
    requires n in WORDS
    ensures KindOf(i, n) != Amount
  {
  }

  lemma AmountsAreNoCodes(i: Instrument, n: string)
    requires n in AMOUNTS
    ensures KindOf(i, n) != Code
  {
  }

  lemma DatesArePlain(n: string)
    requires n == "settlement_date" || n == "expiry_date"
    ensures KindOf(FxOption, n) == Plain
  {
  }

  lemma SaysAlikeAt(i: Instrument, a: Fields, b: Fields, n: string, words: set<string>)
    requires Alike(i, a, b) && n in WORDS
    ensures Says(Get(a, n), words) <==> Says(Get(b, n), words)
  {
    hide Alike, AlikeTerm, KindOf, Says;
    WordsAreNoAmounts(i, n);
    AlikeAt(i, a, b, n);
    SaysAlike(KindOf(i, n), Get(a, n), Get(b, n), words);
  }

  /** The same number, or the same refusal. */
  ghost predicate SameNumber(x: Result<Decimal>, y: Result<Decimal>) {
    if x.Ok? && y.Ok? then SameValue(x.value, y.value) else x == y
  }

  lemma NumberAtAlike(i: Instrument, a: Fields, b: Fields, n: string)
    requires Alike(i, a, b) && n in AMOUNTS
    ensures SameNumber(NumberAt(a, n), NumberAt(b, n))
  {
    hide Alike, AlikeTerm, KindOf, Number, SameValue;
    AmountsAreNoCodes(i, n);
    AlikeAt(i, a, b, n);
    NumberAlike(KindOf(i, n), Get(a, n), Get(b, n));
  }

  lemma PairAlike(i: Instrument, a: Fields, b: Fields)
    requires Alike(i, a, b)
    ensures PairMatches(a) <==> PairMatches(b)
  {
    forall n | n in {"currency_pair", "base_currency", "quote_currency"} ensures UpperAlike(Get(a, n), Get(b, n)) {
      WordsAreNoAmounts(i, n);
      AlikeAt(i, a, b, n);
    }
    hide Alike, Get;
    assert UpperAlike(Get(a, "currency_pair"), Get(b, "currency_pair"));
    assert UpperAlike(Get(a, "base_currency"), Get(b, "base_currency"));
    assert UpperAlike(Get(a, "quote_currency"), Get(b, "quote_currency"));
  }

  ghost predicate UpperAlike(v: Raw, w: Raw) {
    v == w || (v.RText? && w.RText? && Upper(v.s) == Upper(w.s))
  }

  lemma StyleAlike(i: Instrument, a: Fields, b: Fields)
    requires Alike(i, a, b)
    ensures StyleOf(Get(a, "style")) == StyleOf(Get(b, "style"))
  {
    WordsAreNoAmounts(i, "style");
    AlikeAt(i, a, b, "style");
    var v, w := Get(a, "style"), Get(b, "style");
    assert UpperAlike(v, w);
    assert Truthy(v) <==> Truthy(w) by {
      if v != w { assert |Upper(v.s)| == |v.s| && |Upper(w.s)| == |w.s|; }
    }
    assert forall words :: Says(v, words) <==> Says(w, words);
  }

  lemma StyleDefaultsAlike(i: Instrument, a: Fields, b: Fields, style: Style, fx: bool)
    requires Alike(i, a, b)
    ensures Alike(i, StyleDefaults(a, style, fx), StyleDefaults(b, style, fx))
  {
    hide Alike, Default, AlikeTerm;
    var named := RText(StyleName(style));
    ItselfAlike(KindOf(i, "style"), named);
    SetAlike(i, a, b, "style", named, named);
    var a1, b1 := a["style" := named], b["style" := named];
    var exercise := RText(Exercise(style));
    DefaultAlike(i, a1, b1, "exercise_style", exercise);
    var a2, b2 := Default(a1, "exercise_style", exercise), Default(b1, "exercise_style", exercise);
    DefaultAlike(i, a2, b2, "automatic_exercise", RBool(true));
    var a3, b3 := if fx then Default(a2, "automatic_exercise", RBool(true)) else a2, if fx then Default(b2, "automatic_exercise", RBool(true)) else b2;
    DefaultAlike(i, a3, b3, "barrier_monitoring", RText("CONTINUOUS"));
  }

  lemma ItselfAlike(kind: Kind, v: Raw)
    ensures AlikeTerm(kind, v, v)
  {
  }

  lemma StyleChecksAlike(i: Instrument, a: Fields, b: Fields, style: Style)
    requires Alike(i, a, b)
    ensures StyleChecks(a, style) == StyleChecks(b, style)
  {
    hide Alike, Says, NumberAt, SameValue, Less;
    SaysAlikeAt(i, a, b, "exercise_style", {Exercise(style)});
    match style
    case Barrier => SaysAlikeAt(i, a, b, "barrier_type", {"UP_IN", "UP_OUT", "DOWN_IN", "DOWN_OUT"});
    case DoubleBarrier =>
      SaysAlikeAt(i, a, b, "barrier_type", {"KNOCK_IN", "KNOCK_OUT"});
      NumberAtAlike(i, a, b, "lower");
      NumberAtAlike(i, a, b, "upper");
      if NumberAt(a, "lower").Ok? && NumberAt(a, "upper").Ok? {
        LessByValue(NumberAt(a, "lower").value, NumberAt(a, "upper").value, NumberAt(b, "lower").value, NumberAt(b, "upper").value);
      }
    case Touch => SaysAlikeAt(i, a, b, "touch_type", {"ONE_TOUCH", "NO_TOUCH", "DOUBLE_ONE_TOUCH", "DOUBLE_NO_TOUCH"});
    case _ =>
  }

  lemma QuoteNotionalAlike(i: Instrument, a: Fields, b: Fields, base: Decimal, rate: Decimal, base': Decimal, rate': Decimal)
    requires Alike(i, a, b) && SameValue(base, base') && SameValue(rate, rate') && !i.CryptoOption? && !i.CryptoForward?
    ensures Alike(i, QuoteNotional(a, base, rate), QuoteNotional(b, base', rate'))
  {
    hide Alike, SameValue, Rounded, Times, Absent;
    AlikeAt(i, a, b, "quote_notional");
    AbsentAlike(KindOf(i, "quote_notional"), Get(a, "quote_notional"), Get(b, "quote_notional"));
    var x, y := Times(base, rate), Times(base', rate');
    TimesByValue(base, rate, base', rate');
    EqualValuesWrittenAlike(x, y);
    SameStringIffSameRounding(x, y);
    SetAlike(i, a, b, "quote_notional", RNumber(Rounded(x)), RNumber(Rounded(y)));
  }

  /** The same plan but for the spelling of its terms, or the same refusal. */
  ghost predicate SamePlan(x: Result<Plan>, y: Result<Plan>) {
    if x.Ok? && y.Ok? then
      && x.value.product == y.value.product && x.value.instrument == y.value.instrument && x.value.style == y.value.style
      && Alike(x.value.instrument, x.value.terms, y.value.terms)
    else x == y
  }

  lemma FxPlanAlike(i: Instrument, a: Fields, b: Fields)
    requires Alike(i, a, b) && (i == FxSpot || i == FxForward || i == Ndf)
    ensures SamePlan(FxPlan(i, a), FxPlan(i, b))
  {
    hide Alike, Says, NumberAt, SameValue, PairMatches, Missing, Positive, QuoteNotional, Required;
    SaysAlikeAt(i, a, b, "settlement_type", {"NON_DELIVERABLE"});
    SaysAlikeAt(i, a, b, "settlement_type", SETTLEMENTS);
    MissingAlike(i, a, b, Required(i, European, NonDeliverable(a)));
    PairAlike(i, a, b);
    NumberAtAlike(i, a, b, "base_notional");
    NumberAtAlike(i, a, b, "forward_rate");
    var x, y, x', y' := NumberAt(a, "base_notional"), NumberAt(a, "forward_rate"), NumberAt(b, "base_notional"), NumberAt(b, "forward_rate");
    if x.Ok? && x'.Ok? { PositiveByValue(x.value, x'.value); }
    if y.Ok? && y'.Ok? {
      PositiveByValue(y.value, y'.value);
      if x.Ok? && x'.Ok? { QuoteNotionalAlike(i, a, b, x.value, y.value, x'.value, y'.value); }
    }
  }

  ghost predicate SameTerms(i: Instrument, x: Result<Fields>, y: Result<Fields>) {
    if x.Ok? && y.Ok? then Alike(i, x.value, y.value) else x == y
  }

  lemma WithStrikeAlike(a: Fields, b: Fields, base: Decimal, base': Decimal)
    requires Alike(FxOption, a, b) && SameValue(base, base')
    ensures SameTerms(FxOption, WithStrike(a, base), WithStrike(b, base'))
  {
    hide Alike, NumberAt, SameValue, Positive, QuoteNotional, Absent;
    AlikeAt(FxOption, a, b, "strike");
    AbsentAlike(KindOf(FxOption, "strike"), Get(a, "strike"), Get(b, "strike"));
    NumberAtAlike(FxOption, a, b, "strike");
    var y, y' := NumberAt(a, "strike"), NumberAt(b, "strike");
    if y.Ok? && y'.Ok? {
      PositiveByValue(y.value, y'.value);
      QuoteNotionalAlike(FxOption, a, b, base, y.value, base', y'.value);
    }
  }

  lemma DatesAlike(a: Fields, b: Fields)
    requires Alike(FxOption, a, b)
    ensures Get(a, "settlement_date") == Get(b, "settlement_date") && Get(a, "expiry_date") == Get(b, "expiry_date")
  {
    DatesArePlain("settlement_date");
    DatesArePlain("expiry_date");
    AlikeAt(FxOption, a, b, "settlement_date");
    AlikeAt(FxOption, a, b, "expiry_date");
  }

  lemma FxOptionPlanAlike(booked: Fields, booked': Fields)
    requires Alike(FxOption, booked, booked')
    ensures SamePlan(FxOptionPlan(booked), FxOptionPlan(booked'))
  {
    hide Alike, Says, NumberAt, SameValue, PairMatches, Missing, Positive, Required, StyleOf, StyleDefaults, StyleChecks,
      Default, WithStrike, NotBefore;
    StyleAlike(FxOption, booked, booked');
    var style := StyleOf(Get(booked, "style"));
    if style.Ok? {
      StyleDefaultsAlike(FxOption, booked, booked', style.value, true);
      var expiry := RText("10:00 New York");
      DefaultAlike(FxOption, StyleDefaults(booked, style.value, true), StyleDefaults(booked', style.value, true), "expiry_time", expiry);
      var a := Default(StyleDefaults(booked, style.value, true), "expiry_time", expiry);
      var b := Default(StyleDefaults(booked', style.value, true), "expiry_time", expiry);
      SaysAlikeAt(FxOption, a, b, "settlement_type", {"NON_DELIVERABLE"});
      SaysAlikeAt(FxOption, a, b, "settlement_type", SETTLEMENTS);
      SaysAlikeAt(FxOption, a, b, "option_type", CALL_OR_PUT);
      MissingAlike(FxOption, a, b, Required(FxOption, style.value, NonDeliverable(a)));
      StyleChecksAlike(FxOption, a, b, style.value);
      PairAlike(FxOption, a, b);
      DatesAlike(a, b);
      NumberAtAlike(FxOption, a, b, "base_notional");
      var x, x' := NumberAt(a, "base_notional"), NumberAt(b, "base_notional");
      if x.Ok? && x'.Ok? {
        PositiveByValue(x.value, x'.value);
        WithStrikeAlike(a, b, x.value, x'.value);
      }
    }
  }

  lemma CryptoOptionPlanAlike(booked: Fields, booked': Fields)
    requires Alike(CryptoOption, booked, booked')
    ensures SamePlan(CryptoOptionPlan(booked), CryptoOptionPlan(booked'))
  {
    hide Alike, Missing, Required, StyleOf, StyleDefaults, StyleChecks;
    StyleAlike(CryptoOption, booked, booked');
    var style := StyleOf(Get(booked, "style"));
    if style.Ok? {
      StyleDefaultsAlike(CryptoOption, booked, booked', style.value, false);
      var a, b := StyleDefaults(booked, style.value, false), StyleDefaults(booked', style.value, false);
      MissingAlike(CryptoOption, a, b, Required(CryptoOption, style.value, false));
      StyleChecksAlike(CryptoOption, a, b, style.value);
    }
  }

  lemma PlanAlike(i: Instrument, a: Fields, b: Fields)
    requires Alike(i, a, b)
    ensures SamePlan(PlanOf(i, a), PlanOf(i, b))
  {
    hide Alike, FxPlan, FxOptionPlan, CryptoOptionPlan, Missing, Required;
    match i
    case FxOption => FxOptionPlanAlike(a, b);
    case CryptoOption => CryptoOptionPlanAlike(a, b);
    case CryptoForward => MissingAlike(i, a, b, Required(CryptoForward, European, false));
    case _ => FxPlanAlike(i, a, b);
  }

  lemma TermAlike(p: Plan, q: Plan, n: string)
    requires p.instrument == q.instrument && p.style == q.style && Alike(p.instrument, p.terms, q.terms)
    ensures Term(p, n) == Term(q, n)
  {
    hide Alike, KindOf, NumStr, Upper;
    var i := p.instrument;
    AlikeAt(i, p.terms, q.terms, n);
    var v, w := Get(p.terms, n), Get(q.terms, n);
    AbsentAlike(KindOf(i, n), v, w);
    if KindOf(i, n) == Amount && Number(v).Some? && Number(w).Some? {
      NumberAlike(KindOf(i, n), v, w);
      EqualValuesWrittenAlike(Number(v).value, Number(w).value);
    }
  }

  lemma {:induction false} StateTermsAlike(p: Plan, q: Plan, names: seq<string>)
    requires p.instrument == q.instrument && p.style == q.style && Alike(p.instrument, p.terms, q.terms)
    ensures StateTerms(p, names) == StateTerms(q, names)
  {
    hide Alike, Term;
    if names != [] {
      StateTermsAlike(p, q, names[..|names| - 1]);
      TermAlike(p, q, names[|names| - 1]);
    }
  }

  lemma LateChecksAlike(p: Plan, q: Plan)
    requires p.instrument == q.instrument && Alike(p.instrument, p.terms, q.terms)
    ensures LateChecks(p) == LateChecks(q)
  {
    hide Alike, NumberAt, SameValue, Positive, Says;
    NumberAtAlike(p.instrument, p.terms, q.terms, "notional_amount");
    var x, y := NumberAt(p.terms, "notional_amount"), NumberAt(q.terms, "notional_amount");
    if x.Ok? && y.Ok? { PositiveByValue(x.value, y.value); }
    SaysAlikeAt(p.instrument, p.terms, q.terms, "option_type", CALL_OR_PUT);
  }

  lemma CarryAlike(p: Plan, q: Plan, s: Sides)
    requires p.product == q.product && p.instrument == q.instrument && p.style == q.style
    requires Alike(p.instrument, p.terms, q.terms)
    ensures Carry(p, s) == Carry(q, s)
  {
    hide Alike, StateTerms, LateChecks, Block, TermsOf;
    StateTermsAlike(p, q, TermsOf(p.instrument, p.style));
    LateChecksAlike(p, q);
  }

  lemma FinishAlike(p: Result<Plan>, q: Result<Plan>, s: Result<Sides>)
    requires SamePlan(p, q)
    ensures Finish(p, s) == Finish(q, s)
  {
    hide Alike, Carry;
    if p.Ok? && q.Ok? && s.Ok? { CarryAlike(p.value, q.value, s.value); }
  }

  /** Neither the case of a code nor the spelling of a number matters, and which side booked
      the product matters only through who buys: the same block, or the same refusal. */
  lemma SpellingIsNoMatter(i: Instrument, a: Fields, d: Raw, own: string, cp: string, b: Fields, e: Raw, own': string, cp': string)
    requires Alike(i, a, b) && BuyerFirst(d, own, cp) == BuyerFirst(e, own', cp')
    ensures ProductV2(i, a, d, own, cp) == ProductV2(i, b, e, own', cp')
  {
    PlanAlike(i, a, b);
    hide SamePlan, PlanOf, BuyerFirst, Finish;
    FinishAlike(PlanOf(i, a), PlanOf(i, b), BuyerFirst(d, own, cp));
  }

  // ----- what an accepted block holds -----

  lemma {:induction false} NoneMissing(terms: Fields, names: seq<string>)
    requires Missing(terms, names) == []
    ensures forall n :: n in names ==> !Absent(Get(terms, n))
  {
    hide Absent;
    if names != [] {
      NoneMissing(terms, names[..|names| - 1]);
      assert names == names[..|names| - 1] + [names[|names| - 1]];
    }
  }

  lemma RequiredIsStated(i: Instrument, style: Style, nonDeliverable: bool)
    ensures forall n :: n in Required(i, style, nonDeliverable) ==> n in TermsOf(i, style)
  {
    match i
    case FxOption => FxOptionStatesItsStyle(style);
    case CryptoOption => CryptoOptionStatesItsStyle(style);
    case _ =>
  }

  lemma FxOptionStatesItsStyle(style: Style)
    ensures forall n :: n in StyleRequired(style, ["strike"]) ==> n in FXO_TERMS + STYLE_TERMS
    ensures forall n :: n in FXO_REQUIRED + FXO_NDO_REQUIRED ==> n in FXO_TERMS
  {
  }

  lemma CryptoOptionStatesItsStyle(style: Style)
    ensures forall n :: n in StyleRequired(style, ["strike_price", "strike_currency"]) ==> n in TermsOf(CryptoOption, style)
    ensures forall n :: n in CRYPTO_OPTION_REQUIRED ==> n in TermsOf(CryptoOption, style)
  {
  }

  /** Unstated, empty or null. */
  predicate Blank(v: Value) {
    v == Null || v == Str("")
  }

  lemma TermIsNotBlank(plan: Plan, n: string)
    requires Term(plan, n).Ok? && !Absent(Get(plan.terms, n))
    ensures !Blank(Term(plan, n).value)
  {
    hide KindOf, NumStr;
    var v := Get(plan.terms, n);
    if Number(v).Some? { NumStrIsNormal(Number(v).value); }
    if v.RNumber? { NumStrIsNormal(v.d); }
    if v.RText? { assert |Upper(v.s)| == |v.s|; }
  }

  lemma AmountIsNormal(plan: Plan, n: string)
    requires Term(plan, n).Ok? && KindOf(plan.instrument, n) == Amount
    ensures var v := Term(plan, n).value; Blank(v) || (v.Str? && NormalForm(v.s))
  {
    hide KindOf, NumStr, NormalForm;
    var v := Get(plan.terms, n);
    if Number(v).Some? { NumStrIsNormal(Number(v).value); }
  }

  /** Nothing the plan asks for is absent from its terms. */
  ghost predicate StatesRequired(i: Instrument, plan: Plan) {
    && plan.instrument == i
    && forall n :: n in Required(i, plan.style, NonDeliverable(plan.terms)) ==> !Absent(Get(plan.terms, n))
  }

  /** Setting the quote notional makes no other term absent. */
  lemma QuoteNotionalKeeps(i: Instrument, plan: Plan, base: Decimal, rate: Decimal)
    requires StatesRequired(i, plan)
    ensures StatesRequired(i, plan.(terms := QuoteNotional(plan.terms, base, rate)))
  {
    hide Rounded, Required;
    assert "settlement_type" != "quote_notional";
    var after := QuoteNotional(plan.terms, base, rate);
    assert Get(after, "settlement_type") == Get(plan.terms, "settlement_type");
    forall n | n in Required(i, plan.style, NonDeliverable(after)) ensures !Absent(Get(after, n)) {
      assert !Absent(Get(plan.terms, n));
    }
  }

  lemma FxPlanStates(i: Instrument, terms: Fields)
    requires FxPlan(i, terms).Ok? && (i == FxSpot || i == FxForward || i == Ndf)
    ensures StatesRequired(i, FxPlan(i, terms).value)
  {
    hide Absent, Missing, Required, PairMatches, NumberAt, Positive, Says, QuoteNotional;
    NoneMissing(terms, Required(i, European, NonDeliverable(terms)));
    var base, rate := NumberAt(terms, "base_notional").value, NumberAt(terms, "forward_rate").value;
    QuoteNotionalKeeps(i, FxPlan(i, terms).value.(terms := terms), base, rate);
  }

  lemma FxOptionPlanStates(booked: Fields)
    requires FxOptionPlan(booked).Ok?
    ensures StatesRequired(FxOption, FxOptionPlan(booked).value)
  {
    hide Absent, Missing, Required, PairMatches, NumberAt, Positive, Says, QuoteNotional, StyleChecks, StyleDefaults, StyleOf, NotBefore;
    var style := StyleOf(Get(booked, "style")).value;
    var terms := FxOptionTerms(booked, style);
    NoneMissing(terms, Required(FxOption, style, NonDeliverable(terms)));
    var base := NumberAt(terms, "base_notional").value;
    if !Absent(Get(terms, "strike")) {
      QuoteNotionalKeeps(FxOption, FxOptionPlan(booked).value.(terms := terms), base, NumberAt(terms, "strike").value);
    }
  }

  lemma PlanStates(i: Instrument, terms: Fields)
    requires PlanOf(i, terms).Ok?
    ensures StatesRequired(i, PlanOf(i, terms).value)
  {
    hide Absent, Missing, StyleChecks, StyleDefaults, StyleOf, FxPlan, FxOptionPlan;
    match i
    case FxOption => FxOptionPlanStates(terms);
    case CryptoOption => NoneMissing(PlanOf(i, terms).value.terms, Required(CryptoOption, PlanOf(i, terms).value.style, false));
    case CryptoForward => NoneMissing(terms, Required(CryptoForward, European, false));
    case _ => FxPlanStates(i, terms);
  }

  /** An accepted block states every term both parties must state, and every number it
      states is in the normal form. */
  lemma AcceptedIsComplete(i: Instrument, terms: Fields, direction: Raw, own: string, cp: string)
    requires ProductV2(i, terms, direction, own, cp).Ok?
    ensures var plan, m := PlanOf(i, terms).value, StatedTerms(i, terms).value;
      forall n :: n in Required(i, plan.style, NonDeliverable(plan.terms)) ==> n in m && !Blank(m[n])
    ensures var m := StatedTerms(i, terms).value;
      forall n :: n in m && KindOf(i, n) == Amount ==> Blank(m[n]) || (m[n].Str? && NormalForm(m[n].s))
  {
    hide PlanOf, StateTerms, BuyerFirst, LateChecks, Block, TermsOf, Term, Absent, Blank, KindOf, NormalForm, NonDeliverable, Required;
    var plan := PlanOf(i, terms).value;
    var names := TermsOf(plan.instrument, plan.style);
    var m := StateTerms(plan, names).value;
    PlanStates(i, terms);
    StatedIs(plan, names);
    RequiredIsStated(i, plan.style, NonDeliverable(plan.terms));
    forall n | n in Required(i, plan.style, NonDeliverable(plan.terms)) ensures n in m && !Blank(m[n]) {
      TermIsNotBlank(plan, n);
    }
    forall n | n in m && KindOf(i, n) == Amount ensures Blank(m[n]) || (m[n].Str? && NormalForm(m[n].s)) {
      AmountIsNormal(plan, n);
    }
  }

  // ----- which bookings are recorded -----

  predicate Readable(v: Raw) {
    Absent(v) || Number(v).Some?
  }

  predicate IsPositive(v: Raw) {
    Number(v).Some? && Positive(Number(v).value)
  }

  lemma {:induction false} StatingSucceedsIff(plan: Plan, names: seq<string>)
    ensures StateTerms(plan, names).Ok?
      <==> (forall n :: n in names && KindOf(plan.instrument, n) == Amount ==> Readable(Get(plan.terms, n)))
  {
    hide KindOf, Number, Absent, NumStr;
    if names != [] {
      StatingSucceedsIff(plan, names[..|names| - 1]);
      assert names == names[..|names| - 1] + [names[|names| - 1]];
    }
  }

  lemma {:induction false} NothingMissingIff(terms: Fields, names: seq<string>)
    ensures Missing(terms, names) == [] <==> (forall n :: n in names ==> !Absent(Get(terms, n)))
  {
    hide Absent, Get;
    if names != [] {
      var init, last := names[..|names| - 1], names[|names| - 1];
      NothingMissingIff(terms, init);
      assert names == init + [last];
      assert forall n :: n in names <==> n in init || n == last;
      assert Missing(terms, names) == Missing(terms, init) + if Absent(Get(terms, last)) then [last] else [];
    }
  }

  lemma FxAmounts(i: Instrument, n: string)
    requires i == FxSpot || i == FxForward || i == Ndf
    ensures n in FX_TERMS && KindOf(i, n) == Amount <==> n == "base_notional" || n == "quote_notional" || n == "forward_rate"
  {
  }

  /** What the plan of a spot or forward asks for. */
  ghost predicate FxPlannable(i: Instrument, terms: Fields) {
    && (forall n :: n in Required(i, European, NonDeliverable(terms)) ==> !Absent(Get(terms, n)))
    && Says(Get(terms, "settlement_type"), SETTLEMENTS) && (i == Ndf ==> NonDeliverable(terms)) && PairMatches(terms)
    && IsPositive(Get(terms, "base_notional")) && IsPositive(Get(terms, "forward_rate"))
  }

  lemma FxPlannableIff(i: Instrument, terms: Fields)
    requires i == FxSpot || i == FxForward || i == Ndf
    ensures FxPlan(i, terms).Ok? <==> FxPlannable(i, terms)
  {
    hide Says, Missing, Required, PairMatches, Number, Positive, Absent, QuoteNotional;
    NothingMissingIff(terms, Required(i, European, NonDeliverable(terms)));
  }

  lemma QuoteNotionalReads(terms: Fields, base: Decimal, rate: Decimal)
    ensures var full := QuoteNotional(terms, base, rate);
      && Get(full, "base_notional") == Get(terms, "base_notional") && Get(full, "forward_rate") == Get(terms, "forward_rate")
      && (Readable(Get(full, "quote_notional")) <==> Readable(Get(terms, "quote_notional")))
  {
    hide Rounded, Times;
    assert "base_notional" != "quote_notional" && "forward_rate" != "quote_notional";
    NumbersAreRead(Rounded(Times(base, rate)));
  }

  lemma FxPlanTerms(i: Instrument, terms: Fields)
    requires (i == FxSpot || i == FxForward || i == Ndf) && FxPlan(i, terms).Ok?
    ensures var plan := FxPlan(i, terms).value;
      && plan.instrument == i && Readable(Get(plan.terms, "base_notional")) && Readable(Get(plan.terms, "forward_rate"))
      && (Readable(Get(plan.terms, "quote_notional")) <==> Readable(Get(terms, "quote_notional")))
  {
    hide Says, Missing, Required, PairMatches, Number, Positive, Absent, QuoteNotional;
    QuoteNotionalReads(terms, NumberAt(terms, "base_notional").value, NumberAt(terms, "forward_rate").value);
  }

  /** The terms the plan of a spot or forward states are readable exactly when the quote
      notional, if booked, is. */
  lemma FxStatesIff(i: Instrument, terms: Fields)
    requires (i == FxSpot || i == FxForward || i == Ndf) && FxPlan(i, terms).Ok?
    ensures var plan := FxPlan(i, terms).value;
      StateTerms(plan, TermsOf(plan.instrument, plan.style)).Ok? <==> Readable(Get(terms, "quote_notional"))
  {
    hide FxPlan, Readable, StateTerms, KindOf;
    var plan := FxPlan(i, terms).value;
    FxPlanTerms(i, terms);
    StatingSucceedsIff(plan, FX_TERMS);
    forall n ensures n in FX_TERMS && KindOf(i, n) == Amount <==> n == "base_notional" || n == "quote_notional" || n == "forward_rate" {
      FxAmounts(i, n);
    }
  }

  lemma NumbersAreRead(d: Decimal)
    ensures Number(RNumber(d)) == Some(d)
  {
  }

  /** A spot or forward is recorded exactly when every required term is stated, the
      settlement fits the instrument, the pair is its two currencies, notional and rate are
      positive numbers, a booked quote notional is a number, and a side is stated. */
  lemma FxAcceptedIff(i: Instrument, terms: Fields, direction: Raw, own: string, cp: string)
    requires i == FxSpot || i == FxForward || i == Ndf
    ensures ProductV2(i, terms, direction, own, cp).Ok? <==>
      (FxPlannable(i, terms) && Readable(Get(terms, "quote_notional")) && (Says(direction, BUYS) || Says(direction, SELLS)))
  {
    hide FxPlan, FxPlannable, Says, Readable, StateTerms, TermsOf, Block;
    FxPlannableIff(i, terms);
    if FxPlan(i, terms).Ok? {
      FxStatesIff(i, terms);
      FxPlanTerms(i, terms);
    }
  }

  // ----- the quote notional -----

  /** The rate a quote notional is computed with. */
  function RateOf(i: Instrument): string {
    if i == FxOption then "strike" else "forward_rate"
  }

  predicate OnCurrencies(i: Instrument) {
    i != CryptoOption && i != CryptoForward
  }

  /** The plan's quote notional is the rounded product of the two booked amounts. */
  ghost predicate HoldsProduct(i: Instrument, booked: Fields, plan: Plan) {
    && Number(Get(booked, "base_notional")).Some? && Number(Get(booked, RateOf(i))).Some?
    && Get(plan.terms, "quote_notional")
      == RNumber(Rounded(Times(Number(Get(booked, "base_notional")).value, Number(Get(booked, RateOf(i))).value)))
  }

  lemma FxHoldsProduct(i: Instrument, terms: Fields)
    requires FxPlan(i, terms).Ok? && i != FxOption && Absent(Get(terms, "quote_notional"))
    ensures HoldsProduct(i, terms, FxPlan(i, terms).value)
  {
    hide Absent, Missing, Required, PairMatches, Positive, Says, Rounded, Number;
  }

  lemma NotDefaulted(n: string)
    requires n == "base_notional" || n == "quote_notional" || n == "strike"
    ensures n != "style" && n != "exercise_style" && n != "automatic_exercise" && n != "barrier_monitoring" && n != "expiry_time"
  {
  }

  lemma DefaultsKeep(booked: Fields, style: Style, n: string)
    requires n == "base_notional" || n == "quote_notional" || n == "strike"
    ensures Get(FxOptionTerms(booked, style), n) == Get(booked, n)
  {
    NotDefaulted(n);
    hide StyleName, Exercise;
  }

  lemma FxOptionHoldsProduct(booked: Fields)
    requires FxOptionPlan(booked).Ok? && Absent(Get(booked, "quote_notional")) && !Absent(Get(booked, "strike"))
    ensures HoldsProduct(FxOption, booked, FxOptionPlan(booked).value)
  {
    hide Absent, Missing, Required, PairMatches, Positive, Says, Rounded, Number, StyleChecks, StyleOf, NotBefore, FxOptionTerms;
    var style := StyleOf(Get(booked, "style")).value;
    DefaultsKeep(booked, style, "base_notional");
    DefaultsKeep(booked, style, "quote_notional");
    DefaultsKeep(booked, style, "strike");
  }

  /** A quote notional left out is stated as the exact product of notional and rate, written
      like any other number: a booking that states the product gives the same record. */
  lemma QuoteNotionalIsTheProduct(i: Instrument, terms: Fields, direction: Raw, own: string, cp: string)
    requires OnCurrencies(i) && ProductV2(i, terms, direction, own, cp).Ok?
    requires Absent(Get(terms, "quote_notional")) && !Absent(Get(terms, RateOf(i)))
    ensures Number(Get(terms, "base_notional")).Some? && Number(Get(terms, RateOf(i))).Some?
    ensures "quote_notional" in StatedTerms(i, terms).value
    ensures StatedTerms(i, terms).value["quote_notional"]
      == Str(NumStr(Times(Number(Get(terms, "base_notional")).value, Number(Get(terms, RateOf(i))).value)))
  {
    hide FxPlan, FxOptionPlan, Number, StateTerms, Absent, Rounded, NumStr, Times, LateChecks, Block, Normalise;
    if i == FxOption { FxOptionHoldsProduct(terms); } else { FxHoldsProduct(i, terms); }
    PlanStates(i, terms);
    var plan := PlanOf(i, terms).value;
    StatedIs(plan, TermsOf(i, plan.style));
    RoundedTermStated(plan, Times(Number(Get(terms, "base_notional")).value, Number(Get(terms, RateOf(i))).value));
    StatesQuoteNotional(i, plan.style);
  }

  lemma StatesQuoteNotional(i: Instrument, style: Style)
    requires OnCurrencies(i)
    ensures "quote_notional" in TermsOf(i, style)
  {
  }

  lemma RoundedTermStated(plan: Plan, product: Decimal)
    requires OnCurrencies(plan.instrument) && Get(plan.terms, "quote_notional") == RNumber(Rounded(product))
    ensures Term(plan, "quote_notional") == Ok(Str(NumStr(product)))
  {
    hide Rounded, NumStr;
    RoundedWrittenAlike(product);
  }

  // ----- who buys -----

  /** The buyer of a product booked as BUY or LONG is the booker, of one booked as SELL or
      SHORT the counterparty; nothing else can be booked. */
  lemma ProductNamesItsSides(i: Instrument, terms: Fields, direction: Raw, own: string, cp: string)
    requires ProductV2(i, terms, direction, own, cp).Ok?
    ensures Says(direction, {"BUY", "LONG"}) || Says(direction, {"SELL", "SHORT"})
    ensures ProductV2(i, terms, direction, own, cp).value.Obj? &&
      var block := ProductV2(i, terms, direction, own, cp).value.fields;
      "buyer" in block && "seller" in block &&
      if Says(direction, {"BUY", "LONG"}) then block["buyer"] == Str(own) && block["seller"] == Str(cp)
      else block["buyer"] == Str(cp) && block["seller"] == Str(own)
  {
    hide PlanOf, StateTerms, LateChecks, TermsOf;
    var plan := PlanOf(i, terms).value;
    TermsNameNoSide(plan.instrument, plan.style);
    StatedIs(plan, TermsOf(plan.instrument, plan.style));
    assert NamesASide("buyer") && NamesASide("seller");
  }
}
