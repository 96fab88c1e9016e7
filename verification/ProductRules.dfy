/** Which products are recorded, in the words of the schema: a product is recorded exactly
    when every term it demands is stated, its codes are among those known, its amounts are
    numbers and a side is named. */
module ProductRules {
  import opened DecimalArithmetic
  import opened Decimals
  import Json
  import opened Options
  import opened ProductBookings
  import opened ProductRecord
  import opened RecordFields
  import opened Strings

  function WordOf(i: Instrument): string {
    match i
    case FxSpot => "FX_SPOT"
    case FxForward => "FX_FORWARD"
    case Ndf => "NDF"
    case FxOption => "FX_OPTION"
    case CryptoOption => "CRYPTO_OPTION"
    case CryptoForward => "CRYPTO_FORWARD"
  }

  /** An instrument is known by its word, in any case. */
  lemma InstrumentByItsWord(v: Raw, i: Instrument)
    ensures InstrumentOf(v) == Some(i) <==> Says(v, {WordOf(i)})
  {
    hide Upper;
  }

  ghost predicate Given(f: Fields, names: set<string>) {
    forall n :: n in names ==> !Absent(Get(f, n))
  }

  ghost predicate AreNumbers(f: Fields, names: set<string>) {
    forall n :: n in names ==> Readable(Get(f, n))
  }

  /** The pair is the base currency followed by the quote currency, in any case. */
  predicate PairIsItsCurrencies(f: Fields) {
    var pair, base, quote := Get(f, "currency_pair"), Get(f, "base_currency"), Get(f, "quote_currency");
    pair.RText? && base.RText? && quote.RText? && Upper(pair.s) == Upper(base.s) + Upper(quote.s)
  }

  predicate SaysASide(direction: Raw) {
    Says(direction, {"BUY", "LONG"}) || Says(direction, {"SELL", "SHORT"})
  }

  lemma DemandsAreGiven(f: Fields, names: seq<string>, demands: set<string>)
    requires forall n :: n in names <==> n in demands
    ensures Missing(f, names) == [] <==> Given(f, demands)
  {
    hide Absent;
    NothingMissingIff(f, names);
  }

  // ----- spots and forwards -----

  function FxDemands(nonDeliverable: bool): set<string> {
    {"currency_pair", "base_currency", "quote_currency", "base_notional", "forward_rate", "value_date", "settlement_type"}
    + if nonDeliverable then {"settlement_currency", "fixing_source", "fixing_date"} else {}
  }

  lemma FxDemandsAre(i: Instrument, nonDeliverable: bool, n: string)
    requires i == FxSpot || i == FxForward || i == Ndf
    ensures n in Required(i, European, nonDeliverable) <==> n in FxDemands(nonDeliverable || i == Ndf)
  {
  }

  ghost predicate FxBooked(i: Instrument, f: Fields) {
    var ndf := Says(Get(f, "settlement_type"), {"NON_DELIVERABLE"});
    && Given(f, FxDemands(ndf)) && Says(Get(f, "settlement_type"), {"DELIVERABLE", "NON_DELIVERABLE"})
    && (i == Ndf ==> ndf) && PairIsItsCurrencies(f)
    && IsPositive(Get(f, "base_notional")) && IsPositive(Get(f, "forward_rate")) && AreNumbers(f, {"quote_notional"})
  }

  /** A spot or forward is recorded exactly when its demands are met and a side is named. */
  lemma FxRecordedIff(i: Instrument, f: Fields, direction: Raw, own: string, cp: string)
    requires i == FxSpot || i == FxForward || i == Ndf
    ensures ProductV2(i, f, direction, own, cp).Ok? <==> FxBooked(i, f) && SaysASide(direction)
  {
    hide Says, ProductV2, Readable, Absent, Required, IsPositive, FxDemands;
    FxAcceptedIff(i, f, direction, own, cp);
    var ndf := NonDeliverable(f);
    forall n ensures n in Required(i, European, ndf) <==> n in FxDemands(ndf || i == Ndf) {
      FxDemandsAre(i, ndf, n);
    }
  }

  // ----- what counts as no, and what as a number -----

  /** Nothing, no, zero and what is empty count as no; everything else as yes. */
  lemma NoIs(v: Raw)
    ensures !Truthy(v) <==>
      (v in {RNull, RBool(false), RText(""), RList([]), RDict(map[])} || (v.RNumber? && v.d.coefficient == 0))
  {
  }

  /** A number is booked as one, or as plain decimal text: a minus or none, digits, and one
      point at most. */
  lemma PlainTexts(w: string, f: string)
    requires IsDigits(w) && IsDigits(f)
    ensures IsPlain(w) && IsPlain(w + "." + f) && IsPlain("-" + (w + "." + f))
  {
    DigitStands(w, 0);
    DigitsPointDigits(w, f);
    assert ("-" + (w + "." + f))[1..] == w + "." + f;
  }

  lemma NoPlainTexts()
    ensures !IsPlain("") && !IsPlain(".") && !IsPlain("1e5") && !IsPlain("--1") && !IsPlain("1.2.3")
  {
    assert "--1"[1..] == "-1";
    NoPlainText("1e5", 1);
    NoPlainText("-1", 0);
    TwoPoints("1.2.3", 1, 3);
  }

  lemma TwoPoints(s: string, i: nat, j: nat)
    requires i < j < |s| && s[i] == s[j] == '.'
    ensures !IsPlainUnsigned(s)
  {
    assert s[i + 1..][j - i - 1] == '.';
  }

  lemma DigitStands(s: string, i: nat)
    requires i < |s| && '0' <= s[i] <= '9'
    ensures exists k :: 0 <= k < |s| && '0' <= s[k] <= '9'
  {
  }

  lemma NoPlainText(s: string, i: nat)
    requires i < |s| && !('0' <= s[i] <= '9') && s[i] != '.'
    ensures !IsPlainUnsigned(s)
  {
  }

  /** The text a record writes of a number is read as that number, rounded. */
  lemma WrittenNumbersRead(d: Decimal)
    ensures Number(RText(NumStr(d))).Some? && SameValue(Number(RText(NumStr(d))).value, Rounded(d))
  {
    NumStrParses(d);
    NumStrIsNormal(d);
    hide NumStr, Rounded, SameValue, Parse;
    NormalIsPlain(NumStr(d));
  }

  lemma NormalIsPlain(s: string)
    requires NormalForm(s)
    ensures IsPlain(s)
  {
    if s[0] == '-' { UnsignedIsPlain(true, s[1..]); } else { UnsignedIsPlain(false, s); }
  }

  lemma UnsignedIsPlain(negative: bool, u: string)
    requires NormalUnsigned(negative, u)
    ensures IsPlainUnsigned(u)
  {
    hide ParseUnsigned;
    if '.' in u {
      var f := Fraction(u);
      FractionEnds(u);
      var n := |u| - |f| - 1;
      assert u == u[..n] + "." + f;
      DigitsPointDigits(u[..n], f);
    } else {
      DigitStands(u, 0);
    }
  }

  lemma DigitsPointDigits(w: string, f: string)
    requires IsDigits(w) && IsDigits(f)
    ensures IsPlainUnsigned(w + "." + f)
  {
    var u, n := w + "." + f, |w|;
    DigitStands(u, 0);
    assert u[n + 1..] == f;
  }

  lemma {:induction false} FractionEnds(u: string)
    requires '.' in u
    ensures |Fraction(u)| < |u| && u[|u| - |Fraction(u)| - 1] == '.' && u[|u| - |Fraction(u)|..] == Fraction(u)
  {
    if u[0] != '.' { FractionEnds(u[1..]); }
  }

  // ----- the styles of an option -----

  const STYLES: set<string> := {"EUROPEAN", "AMERICAN", "DIGITAL", "BARRIER", "DOUBLE_BARRIER", "TOUCH"}

  /** The style in words; an option that states none is European. */
  function StyleWord(v: Raw): string {
    if !Truthy(v) then "EUROPEAN" else if v.RText? then Upper(v.s) else ""
  }

  lemma StyleIsItsWord(v: Raw)
    ensures StyleOf(v).Ok? <==> StyleWord(v) in STYLES
    ensures StyleOf(v).Ok? ==> StyleName(StyleOf(v).value) == StyleWord(v)
  {
    hide Upper;
  }

  function StyleDemands(style: string, strike: set<string>): set<string> {
    (if style == "TOUCH" then {"touch_type"} else strike)
    + (if style == "TOUCH" || style == "DIGITAL" then {"payout", "payout_currency"} else {})
    + (if style == "BARRIER" then {"barrier_type", "barrier"} else {})
    + (if style == "DOUBLE_BARRIER" then {"barrier_type", "lower", "upper"} else {})
  }

  lemma StyleDemandsAre(style: Style, strike: seq<string>, n: string)
    ensures n in StyleRequired(style, strike) <==> n in StyleDemands(StyleName(style), set s | s in strike)
  {
  }

  /** The exercise, the barriers and the touch fit the style. */
  predicate StyleFits(f: Fields, style: string) {
    && ("exercise_style" in f ==> Says(f["exercise_style"], {if style == "AMERICAN" then "AMERICAN" else "EUROPEAN"}))
    && (style == "BARRIER" ==> Says(Get(f, "barrier_type"), {"UP_IN", "UP_OUT", "DOWN_IN", "DOWN_OUT"}))
    && (style == "DOUBLE_BARRIER" ==>
      && Says(Get(f, "barrier_type"), {"KNOCK_IN", "KNOCK_OUT"})
      && Number(Get(f, "lower")).Some? && Number(Get(f, "upper")).Some?
      && Less(Number(Get(f, "lower")).value, Number(Get(f, "upper")).value))
    && (style == "TOUCH" ==> Says(Get(f, "touch_type"), {"ONE_TOUCH", "NO_TOUCH", "DOUBLE_ONE_TOUCH", "DOUBLE_NO_TOUCH"}))
  }

  /** Filling in the defaults of a style leaves every other field. */
  predicate Defaulted(n: string) {
    n in {"style", "exercise_style", "automatic_exercise", "barrier_monitoring", "expiry_time"}
  }

  lemma DefaultsLeave(f: Fields, style: Style, fx: bool, n: string)
    requires !Defaulted(n)
    ensures Get(StyleDefaults(f, style, fx), n) == Get(f, n) == Get(FxOptionTerms(f, style), n)
  {
    hide StyleName, Exercise;
  }

  lemma ExerciseFits(f: Fields, style: Style, fx: bool)
    ensures Says(Get(StyleDefaults(f, style, fx), "exercise_style"), {Exercise(style)})
      <==> ("exercise_style" in f ==> Says(f["exercise_style"], {if style == American then "AMERICAN" else "EUROPEAN"}))
  {
    assert Upper("AMERICAN") == "AMERICAN" && Upper("EUROPEAN") == "EUROPEAN";
    hide Upper, StyleName;
  }

  lemma StyleChecksIff(f: Fields, style: Style, g: Fields)
    requires g == StyleDefaults(f, style, true) || g == StyleDefaults(f, style, false) || g == FxOptionTerms(f, style)
    ensures StyleChecks(g, style).Pass? <==> StyleFits(f, StyleName(style))
  {
    var fx := g != StyleDefaults(f, style, false);
    ExerciseFits(f, style, fx);
    ExpiryLeavesExercise(f, style);
    DefaultsLeave(f, style, fx, "barrier_type");
    DefaultsLeave(f, style, fx, "lower");
    DefaultsLeave(f, style, fx, "upper");
    DefaultsLeave(f, style, fx, "touch_type");
    hide Says, Number, Less, StyleDefaults, FxOptionTerms, Exercise;
    var checks := StyleChecks(g, style);
    match style
    case DoubleBarrier =>
    case _ =>
  }

  lemma ExpiryLeavesExercise(f: Fields, style: Style)
    ensures Get(FxOptionTerms(f, style), "exercise_style") == Get(StyleDefaults(f, style, true), "exercise_style")
  {
    hide StyleDefaults;
    assert "exercise_style" != "expiry_time";
  }

  // ----- currency options -----

  function FxOptionDemands(style: string, nonDeliverable: bool): set<string> {
    {"currency_pair", "base_currency", "quote_currency", "option_type", "base_notional", "expiry_date", "settlement_date",
     "settlement_type", "premium_amount", "premium_currency", "premium_payment_date"}
    + StyleDemands(style, {"strike"}) + if nonDeliverable then {"settlement_currency", "fixing_source"} else {}
  }

  lemma FxOptionDemandsAre(style: Style, nonDeliverable: bool, n: string)
    ensures n in Required(FxOption, style, nonDeliverable) <==> n in FxOptionDemands(StyleName(style), nonDeliverable)
    ensures n in Required(FxOption, style, nonDeliverable) ==> !Defaulted(n)
  {
    hide StyleRequired, StyleDemands, StyleName;
    StyleDemandsAre(style, ["strike"], n);
    assert (set s | s in ["strike"]) == {"strike"};
    if n in StyleDemands(StyleName(style), {"strike"}) { NoStyleDemandsADefault(StyleName(style), {"strike"}, n); }
  }

  ghost predicate FxOptionBooked(f: Fields) {
    var style := StyleWord(Get(f, "style"));
    && style in STYLES
    && Given(f, FxOptionDemands(style, Says(Get(f, "settlement_type"), {"NON_DELIVERABLE"})))
    && StyleFits(f, style) && FxOptionSays(f)
    && IsPositive(Get(f, "base_notional")) && (Absent(Get(f, "strike")) || IsPositive(Get(f, "strike")))
  }

  /** The settlement date is not before the expiry date; dates are compared as ISO text. */
  predicate SettlesInTime(f: Fields) {
    var expiry, settlement := Get(f, "expiry_date"), Get(f, "settlement_date");
    expiry.RText? && settlement.RText? && Json.Leq(expiry.s, settlement.s)
  }

  lemma FxOptionGiven(f: Fields, style: Style)
    ensures var terms := FxOptionTerms(f, style); var ndo := NonDeliverable(f);
      && NonDeliverable(terms) == ndo
      && (Missing(terms, Required(FxOption, style, ndo)) == [] <==> Given(f, FxOptionDemands(StyleName(style), ndo)))
  {
    hide Absent, FxOptionTerms, StyleDefaults, Says, Required, FxOptionDemands;
    var terms, ndo := FxOptionTerms(f, style), NonDeliverable(f);
    DefaultsLeave(f, style, true, "settlement_type");
    NothingMissingIff(terms, Required(FxOption, style, ndo));
    forall n ensures n in Required(FxOption, style, ndo) <==> n in FxOptionDemands(StyleName(style), ndo) {
      FxOptionDemandsAre(style, ndo, n);
    }
    forall n | n in Required(FxOption, style, ndo) ensures Get(terms, n) == Get(f, n) {
      FxOptionDemandsAre(style, ndo, n);
      DefaultsLeave(f, style, true, n);
    }
  }

  /** What the plan of an option checks besides its style, its demands and its strike. */
  predicate FxOptionSays(f: Fields) {
    && Says(Get(f, "settlement_type"), {"DELIVERABLE", "NON_DELIVERABLE"}) && Says(Get(f, "option_type"), {"CALL", "PUT"})
    && PairIsItsCurrencies(f) && SettlesInTime(f)
  }

  lemma FxOptionSaysAlike(f: Fields, style: Style)
    ensures var terms := FxOptionTerms(f, style);
      FxOptionSays(f) <==>
        Says(Get(terms, "settlement_type"), SETTLEMENTS) && Says(Get(terms, "option_type"), CALL_OR_PUT)
        && PairMatches(terms) && NotBefore(Get(terms, "settlement_date"), Get(terms, "expiry_date"))
  {
    DefaultsLeave(f, style, true, "option_type");
    DefaultsLeave(f, style, true, "currency_pair");
    DefaultsLeave(f, style, true, "base_currency");
    DefaultsLeave(f, style, true, "quote_currency");
    DefaultsLeave(f, style, true, "settlement_date");
    DefaultsLeave(f, style, true, "expiry_date");
    DefaultsLeave(f, style, true, "settlement_type");
    hide Says, FxOptionTerms, StyleDefaults, Json.Leq, Upper;
  }

  lemma FxOptionPlanIff(f: Fields)
    ensures FxOptionPlan(f).Ok? <==> FxOptionBooked(f)
  {
    hide Absent, Missing, Required, Number, Positive, Says, StyleFits, StyleChecks, FxOptionTerms, FxOptionDemands, StyleWord, StyleOf, Json.Leq,
      Upper, QuoteNotional, StyleName, PairMatches, NotBefore, PairIsItsCurrencies, SettlesInTime, Given, StyleDefaults;
    StyleIsItsWord(Get(f, "style"));
    if StyleOf(Get(f, "style")).Ok? {
      var style := StyleOf(Get(f, "style")).value;
      var terms := FxOptionTerms(f, style);
      FxOptionGiven(f, style);
      StyleChecksIff(f, style, terms);
      FxOptionSaysAlike(f, style);
      DefaultsLeave(f, style, true, "base_notional");
      DefaultsLeave(f, style, true, "strike");
    }
  }

  const FXO_AMOUNTS: set<string> := {
    "base_notional", "quote_notional", "strike", "premium_amount", "payout", "barrier", "lower", "upper", "rebate"}

  lemma FxOptionAmounts(style: Style, n: string)
    ensures n in TermsOf(FxOption, style) && KindOf(FxOption, n) == Amount
      <==> n in FXO_AMOUNTS
  {
  }

  lemma AmountsAreNotDefaulted(n: string)
    requires n in FXO_AMOUNTS
    ensures !Defaulted(n)
  {
  }

  /** Working out the quote notional makes no amount unreadable. */
  lemma QuoteNotionalLeaves(f: Fields, base: Decimal, rate: Decimal, n: string)
    ensures Readable(Get(QuoteNotional(f, base, rate), n)) <==> Readable(Get(f, n))
  {
    hide Rounded, Times;
    NumbersAreRead(Rounded(Times(base, rate)));
  }

  lemma FxOptionReads(f: Fields, n: string)
    requires FxOptionPlan(f).Ok?
    requires n in FXO_AMOUNTS
    ensures FxOptionPlan(f).value.instrument == FxOption
    ensures Readable(Get(FxOptionPlan(f).value.terms, n)) <==> Readable(Get(f, n))
  {
    hide Absent, Missing, Required, Number, Positive, Says, StyleChecks, FxOptionTerms, StyleOf, Json.Leq, Upper, QuoteNotional, Readable, PairMatches;
    var style := StyleOf(Get(f, "style")).value;
    var terms := FxOptionTerms(f, style);
    AmountsAreNotDefaulted(n);
    DefaultsLeave(f, style, true, n);
    if !Absent(Get(terms, "strike")) {
      QuoteNotionalLeaves(terms, NumberAt(terms, "base_notional").value, NumberAt(terms, "strike").value, n);
    }
  }

  lemma FxOptionStatesIff(f: Fields)
    requires FxOptionPlan(f).Ok?
    ensures var plan := FxOptionPlan(f).value;
      StateTerms(plan, TermsOf(plan.instrument, plan.style)).Ok? <==>
        AreNumbers(f, FXO_AMOUNTS)
  {
    hide FxOptionPlan, Readable, StateTerms, KindOf, TermsOf;
    var plan := FxOptionPlan(f).value;
    FxOptionReads(f, "strike");
    StatingSucceedsIff(plan, TermsOf(FxOption, plan.style));
    forall n ensures n in TermsOf(FxOption, plan.style) && KindOf(FxOption, n) == Amount
      <==> n in FXO_AMOUNTS {
      FxOptionAmounts(plan.style, n);
    }
    forall n | n in FXO_AMOUNTS
      ensures Readable(Get(plan.terms, n)) <==> Readable(Get(f, n)) {
      FxOptionReads(f, n);
    }
  }

  /** A currency option is recorded exactly when it is booked so, its amounts are numbers and
      a side is named. */
  lemma FxOptionRecordedIff(f: Fields, direction: Raw, own: string, cp: string)
    ensures ProductV2(FxOption, f, direction, own, cp).Ok? <==>
      FxOptionBooked(f) && SaysASide(direction)
      && AreNumbers(f, FXO_AMOUNTS)
  {
    hide FxOptionPlan, FxOptionBooked, Says, Readable, StateTerms, TermsOf, Block;
    FxOptionPlanIff(f);
    if FxOptionPlan(f).Ok? {
      FxOptionStatesIff(f);
      FxOptionReads(f, "strike");
    }
  }

  // ----- options and forwards on digital assets -----

  function CryptoOptionDemands(style: string): set<string> {
    {"digital_asset", "notional_amount", "option_type", "expiration_date", "valuation_date", "settlement_date",
     "settlement_currency", "settlement_price_source", "premium_amount", "premium_currency", "premium_payment_date"}
    + StyleDemands(style, {"strike_price", "strike_currency"})
  }

  lemma CryptoOptionDemandsAre(style: Style, n: string)
    ensures n in Required(CryptoOption, style, false) <==> n in CryptoOptionDemands(StyleName(style)) || n == "exercise_style"
    ensures n in CryptoOptionDemands(StyleName(style)) ==> !Defaulted(n)
  {
    hide StyleRequired, StyleDemands, StyleName;
    StyleDemandsAre(style, ["strike_price", "strike_currency"], n);
    assert (set s | s in ["strike_price", "strike_currency"]) == {"strike_price", "strike_currency"};
    if n in StyleDemands(StyleName(style), {"strike_price", "strike_currency"}) {
      NoStyleDemandsADefault(StyleName(style), {"strike_price", "strike_currency"}, n);
    }
  }

  lemma NoStyleDemandsADefault(style: string, strike: set<string>, n: string)
    requires n in StyleDemands(style, strike)
    ensures n in strike || !Defaulted(n)
  {
  }

  lemma CryptoOptionGiven(f: Fields, style: Style)
    requires !Absent(Get(StyleDefaults(f, style, false), "exercise_style"))
    ensures Missing(StyleDefaults(f, style, false), Required(CryptoOption, style, false)) == []
      <==> Given(f, CryptoOptionDemands(StyleName(style)))
  {
    hide Absent, StyleDefaults, Required, CryptoOptionDemands, FxOptionTerms;
    var terms := StyleDefaults(f, style, false);
    NothingMissingIff(terms, Required(CryptoOption, style, false));
    forall n ensures n in Required(CryptoOption, style, false) <==> n in CryptoOptionDemands(StyleName(style)) || n == "exercise_style" {
      CryptoOptionDemandsAre(style, n);
    }
    forall n | n in CryptoOptionDemands(StyleName(style)) ensures Get(terms, n) == Get(f, n) {
      CryptoOptionDemandsAre(style, n);
      DefaultsLeave(f, style, false, n);
    }
  }

  ghost predicate CryptoOptionBooked(f: Fields) {
    var style := StyleWord(Get(f, "style"));
    && style in STYLES
    && Given(f, CryptoOptionDemands(style)) && StyleFits(f, style)
    && IsPositive(Get(f, "notional_amount")) && Says(Get(f, "option_type"), {"CALL", "PUT"})
    && AreNumbers(f, {"strike_price", "premium_amount"})
    && (style != "EUROPEAN" ==> AreNumbers(f, {"payout", "barrier", "lower", "upper", "rebate"}))
  }

  lemma SaidIsGiven(v: Raw, words: set<string>)
    requires Says(v, words) && "" !in words
    ensures !Absent(v)
  {
    assert Upper("") == "";
  }

  lemma CryptoOptionPlanIff(f: Fields)
    ensures var style := StyleWord(Get(f, "style"));
      CryptoOptionPlan(f).Ok? <==>
        style in STYLES
        && Given(f, CryptoOptionDemands(style)) && StyleFits(f, style)
  {
    hide Absent, Missing, Required, Says, StyleFits, StyleChecks, StyleDefaults, CryptoOptionDemands, StyleWord, StyleOf, FxOptionTerms, Given;
    StyleIsItsWord(Get(f, "style"));
    if StyleOf(Get(f, "style")).Ok? {
      var style := StyleOf(Get(f, "style")).value;
      var terms := StyleDefaults(f, style, false);
      StyleChecksIff(f, style, terms);
      if StyleChecks(terms, style).Pass? {
        ChecksSayExercise(terms, style);
        CryptoOptionGiven(f, style);
      }
    }
  }

  lemma ChecksSayExercise(terms: Fields, style: Style)
    requires StyleChecks(terms, style).Pass?
    ensures !Absent(Get(terms, "exercise_style"))
  {
    hide Says, Absent;
    SaidIsGiven(Get(terms, "exercise_style"), {Exercise(style)});
  }

  lemma CryptoOptionAmounts(style: Style, n: string)
    ensures n in TermsOf(CryptoOption, style) && KindOf(CryptoOption, n) == Amount
      <==> (n in {"notional_amount", "strike_price", "premium_amount"}
        || (style != European && n in {"payout", "barrier", "lower", "upper", "rebate"}))
    ensures n in TermsOf(CryptoOption, style) && KindOf(CryptoOption, n) == Amount ==> !Defaulted(n)
  {
  }

  lemma CryptoOptionStatesIff(f: Fields)
    requires CryptoOptionPlan(f).Ok?
    ensures var plan := CryptoOptionPlan(f).value;
      StateTerms(plan, TermsOf(plan.instrument, plan.style)).Ok? <==>
        AreNumbers(f, {"notional_amount", "strike_price", "premium_amount"})
        && (plan.style != European ==> AreNumbers(f, {"payout", "barrier", "lower", "upper", "rebate"}))
  {
    hide StyleOf, Missing, Required, StyleChecks, StyleDefaults, Readable, StateTerms, KindOf, TermsOf, FxOptionTerms, Defaulted;
    var plan := CryptoOptionPlan(f).value;
    StatingSucceedsIff(plan, TermsOf(CryptoOption, plan.style));
    forall n ensures n in TermsOf(CryptoOption, plan.style) && KindOf(CryptoOption, n) == Amount
      <==> (n in {"notional_amount", "strike_price", "premium_amount"}
        || (plan.style != European && n in {"payout", "barrier", "lower", "upper", "rebate"})) {
      CryptoOptionAmounts(plan.style, n);
    }
    forall n | n in TermsOf(CryptoOption, plan.style) && KindOf(CryptoOption, n) == Amount
      ensures Get(plan.terms, n) == Get(f, n) {
      CryptoOptionAmounts(plan.style, n);
      DefaultsLeave(f, plan.style, false, n);
    }
  }

  lemma CryptoOptionKeeps(f: Fields)
    requires CryptoOptionPlan(f).Ok?
    ensures var plan := CryptoOptionPlan(f).value;
      && plan.instrument == CryptoOption && StyleName(plan.style) == StyleWord(Get(f, "style"))
      && Get(plan.terms, "notional_amount") == Get(f, "notional_amount") && Get(plan.terms, "option_type") == Get(f, "option_type")
  {
    hide Missing, Required, StyleChecks, StyleDefaults, StyleWord, StyleOf, FxOptionTerms;
    StyleIsItsWord(Get(f, "style"));
    var style := StyleOf(Get(f, "style")).value;
    DefaultsLeave(f, style, false, "notional_amount");
    DefaultsLeave(f, style, false, "option_type");
  }

  /** An option on a digital asset is recorded exactly when it is booked so and a side is named. */
  lemma CryptoOptionRecordedIff(f: Fields, direction: Raw, own: string, cp: string)
    ensures ProductV2(CryptoOption, f, direction, own, cp).Ok? <==> CryptoOptionBooked(f) && SaysASide(direction)
  {
    hide CryptoOptionPlan, Says, StateTerms, TermsOf, Block, StyleFits, StyleWord, CryptoOptionDemands, Positive, Number, Absent;
    CryptoOptionPlanIff(f);
    if CryptoOptionPlan(f).Ok? {
      CryptoOptionStatesIff(f);
      CryptoOptionKeeps(f);
      StyleNamesDiffer(CryptoOptionPlan(f).value.style);
    }
  }

  lemma StyleNamesDiffer(style: Style)
    ensures StyleName(style) == "EUROPEAN" <==> style == European
  {
  }

  function CryptoForwardDemands(): set<string> {
    {"digital_asset", "notional_amount", "forward_price", "price_currency", "valuation_date", "settlement_date",
     "settlement_currency", "settlement_price_source"}
  }

  /** A forward on a digital asset is recorded exactly when its demands are given, its amounts
      are numbers, the notional positive, and a side is named. */
  lemma CryptoForwardRecordedIff(f: Fields, direction: Raw, own: string, cp: string)
    ensures ProductV2(CryptoForward, f, direction, own, cp).Ok? <==>
      Given(f, CryptoForwardDemands()) && IsPositive(Get(f, "notional_amount")) && AreNumbers(f, {"forward_price"})
      && SaysASide(direction)
  {
    hide Says, StateTerms, Block, Positive, Number, Absent, Missing, CryptoForwardDemands, CRYPTO_FORWARD_REQUIRED;
    CryptoForwardPlanIff(f);
    CryptoForwardStatesIff(f);
  }

  lemma CryptoForwardPlanIff(f: Fields)
    ensures Missing(f, CRYPTO_FORWARD_REQUIRED) == [] <==> Given(f, CryptoForwardDemands())
  {
    hide Absent, Given;
    DemandsAreGiven(f, CRYPTO_FORWARD_REQUIRED, CryptoForwardDemands());
  }

  lemma CryptoForwardStatesIff(f: Fields)
    ensures StateTerms(Plan("NDF", CryptoForward, European, f), TermsOf(CryptoForward, European)).Ok?
      <==> AreNumbers(f, {"notional_amount", "forward_price"})
  {
    hide StateTerms, Readable, KindOf, TermsOf;
    StatingSucceedsIff(Plan("NDF", CryptoForward, European, f), TermsOf(CryptoForward, European));
    forall n ensures n in TermsOf(CryptoForward, European) && KindOf(CryptoForward, n) == Amount
      <==> n == "notional_amount" || n == "forward_price" {
      CryptoForwardAmounts(n);
    }
  }

  lemma CryptoForwardAmounts(n: string)
    ensures n in TermsOf(CryptoForward, European) && KindOf(CryptoForward, n) == Amount
      <==> n == "notional_amount" || n == "forward_price"
  {
  }

  // ----- what a block says of each term -----

  /** The codes of all products. */
  const CODES: set<string> := {
    "currency_pair", "base_currency", "quote_currency", "option_type", "exercise_style", "settlement_type",
    "settlement_currency", "premium_currency", "style", "payout_currency", "barrier_type", "touch_type",
    "barrier_monitoring", "digital_asset", "strike_currency", "price_currency"}

  /** The amounts of all products. */
  const AMOUNTS_OF_ALL: set<string> := {
    "base_notional", "quote_notional", "forward_rate", "strike", "premium_amount", "payout", "barrier", "lower", "upper",
    "rebate", "notional_amount", "strike_price", "forward_price"}

  predicate IsFlag(i: Instrument, n: string) {
    n == "pay_at_hit" || (n == "automatic_exercise" && i == FxOption)
  }

  lemma OptionCodes(i: Instrument, n: string)
    requires (i == FxOption && n in FXO_NAMES + STYLE_NAMES) || (i == CryptoOption && n in CRYPTO_NAMES + CRYPTO_OPTION_NAMES + STYLE_NAMES)
    ensures n in Codes(i) <==> n in CODES
  {
  }

  lemma OptionAmounts(i: Instrument, n: string)
    requires (i == FxOption && n in FXO_NAMES + STYLE_NAMES) || (i == CryptoOption && n in CRYPTO_NAMES + CRYPTO_OPTION_NAMES + STYLE_NAMES)
    ensures n in Numbers(i) <==> n in AMOUNTS_OF_ALL
  {
  }

  lemma ForwardCodes(i: Instrument, n: string)
    requires (i == CryptoForward && n in CRYPTO_NAMES + {"forward_price", "price_currency"}) || (!i.CryptoForward? && !i.CryptoOption? && !i.FxOption? && n in FX_NAMES)
    ensures n in Codes(i) <==> n in CODES
  {
  }

  lemma ForwardAmounts(i: Instrument, n: string)
    requires (i == CryptoForward && n in CRYPTO_NAMES + {"forward_price", "price_currency"}) || (!i.CryptoForward? && !i.CryptoOption? && !i.FxOption? && n in FX_NAMES)
    ensures n in Numbers(i) <==> n in AMOUNTS_OF_ALL
  {
  }

  lemma FlagsAgree(i: Instrument, style: Style, n: string)
    requires n in TermsOf(i, style)
    ensures n in Flags(i) <==> IsFlag(i, n)
    ensures IsFlag(i, n) ==> n !in CODES && n !in AMOUNTS_OF_ALL
    ensures n !in CODES || n !in AMOUNTS_OF_ALL
  {
    TermsAreTheNames(i, style, n);
    hide TermsOf;
  }

  lemma KindOfStated(i: Instrument, style: Style, n: string)
    requires n in TermsOf(i, style)
    ensures KindOf(i, n) == Code <==> n in CODES
    ensures KindOf(i, n) == Amount <==> n in AMOUNTS_OF_ALL
    ensures KindOf(i, n) == Flag <==> IsFlag(i, n)
  {
    hide TermsOf, Codes, Numbers, Flags, IsFlag, CODES, AMOUNTS_OF_ALL, FXO_NAMES, STYLE_NAMES, CRYPTO_NAMES, CRYPTO_OPTION_NAMES, FX_NAMES;
    TermsAreTheNames(i, style, n);
    FlagsAgree(i, style, n);
    if i == FxOption || i == CryptoOption {
      OptionCodes(i, n);
      OptionAmounts(i, n);
    } else {
      ForwardCodes(i, n);
      ForwardAmounts(i, n);
    }
  }

  lemma PlanKeeps(i: Instrument, f: Fields, n: string)
    requires PlanOf(i, f).Ok? && !Defaulted(n) && n != "quote_notional"
    ensures PlanOf(i, f).value.instrument == i && Get(PlanOf(i, f).value.terms, n) == Get(f, n)
  {
    hide Absent, Missing, Required, Number, Positive, Says, StyleChecks, FxOptionTerms, StyleDefaults, StyleOf, Json.Leq, Upper, Rounded, PairMatches, Defaulted;
    if i == FxOption || i == CryptoOption {
      DefaultsLeave(f, StyleOf(Get(f, "style")).value, i == FxOption, n);
    }
  }

  /** A term is stated as booked: a code in capitals, an amount in the normal form, yes or no
      by what was booked, and anything else as it stands. */
  lemma TermAsBooked(i: Instrument, f: Fields, n: string)
    requires StatedTerms(i, f).Ok? && n in StatedTerms(i, f).value && !Defaulted(n) && n != "quote_notional"
    ensures var v, stated := Get(f, n), StatedTerms(i, f).value[n];
      && (n in CODES && v.RText? ==> stated == Json.Str(Upper(v.s)))
      && (n in AMOUNTS_OF_ALL && !Absent(v) ==> Number(v).Some? && stated == Json.Str(NumStr(Number(v).value)))
      && (IsFlag(i, n) && !Absent(v) ==> stated == Json.Bool(Truthy(v)))
      && (n !in CODES && n !in AMOUNTS_OF_ALL && !IsFlag(i, n) ==> stated == Normalise(v))
  {
    hide PlanOf, StateTerms, TermsOf, KindOf, Defaulted, Normalise, Number, NumStr, IsFlag;
    var plan := PlanOf(i, f).value;
    PlanKeeps(i, f, n);
    StatedIs(plan, TermsOf(i, plan.style));
    KindOfStated(i, plan.style, n);
  }

  const STYLE_NAMES: set<string> := {
    "style", "payout", "payout_currency", "barrier_type", "barrier", "lower", "upper", "rebate", "touch_type",
    "pay_at_hit", "barrier_monitoring", "barrier_determination_agent"}

  const FXO_NAMES: set<string> := {
    "currency_pair", "base_currency", "quote_currency", "option_type", "exercise_style", "base_notional",
    "quote_notional", "strike", "expiry_date", "expiry_time", "settlement_date", "settlement_type",
    "settlement_currency", "fixing_source", "premium_amount", "premium_currency", "premium_payment_date",
    "automatic_exercise", "calculation_agent"}

  const FX_NAMES: set<string> := {
    "currency_pair", "base_currency", "quote_currency", "base_notional", "quote_notional", "forward_rate",
    "value_date", "settlement_type", "settlement_currency", "fixing_source", "fixing_date", "calculation_agent"}

  const CRYPTO_NAMES: set<string> := {
    "digital_asset", "notional_amount", "valuation_date", "valuation_time", "settlement_date", "settlement_currency",
    "settlement_price_source", "calculation_agent", "disruption_fallback"}

  const CRYPTO_OPTION_NAMES: set<string> := {
    "option_type", "exercise_style", "strike_price", "strike_currency", "expiration_date", "expiration_time",
    "premium_amount", "premium_currency", "premium_payment_date", "automatic_exercise"}

  /** The names a block states, besides the product and its sides. */
  function NamesStated(i: Instrument, european: bool): set<string> {
    match i
    case FxOption => FXO_NAMES + STYLE_NAMES
    case CryptoOption => CRYPTO_NAMES + CRYPTO_OPTION_NAMES + if european then {} else STYLE_NAMES
    case CryptoForward => CRYPTO_NAMES + {"forward_price", "price_currency"}
    case _ => FX_NAMES
  }

  lemma ListsHoldTheNames(n: string)
    ensures (n in FXO_TERMS <==> n in FXO_NAMES) && (n in STYLE_TERMS <==> n in STYLE_NAMES)
    ensures (n in FX_TERMS <==> n in FX_NAMES) && (n in CRYPTO_TERMS <==> n in CRYPTO_NAMES)
    ensures n in CRYPTO_OPTION_TERMS <==> n in CRYPTO_OPTION_NAMES
    ensures n in CRYPTO_FORWARD_TERMS <==> n in {"forward_price", "price_currency"}
  {
  }

  lemma TermsAreTheNames(i: Instrument, style: Style, n: string)
    ensures n in TermsOf(i, style) <==> n in NamesStated(i, style == European)
  {
    ListsHoldTheNames(n);
    hide FX_TERMS, FXO_TERMS, STYLE_TERMS, CRYPTO_TERMS, CRYPTO_OPTION_TERMS, CRYPTO_FORWARD_TERMS;
  }

  lemma PlanIsEuropean(i: Instrument, f: Fields)
    requires PlanOf(i, f).Ok? && (i == CryptoOption || i == FxOption)
    ensures StyleName(PlanOf(i, f).value.style) == StyleWord(Get(f, "style"))
    ensures PlanOf(i, f).value.style == European <==> StyleWord(Get(f, "style")) == "EUROPEAN"
  {
    hide Absent, Missing, Required, Number, Positive, Says, StyleChecks, FxOptionTerms, StyleDefaults, StyleOf, StyleWord, Json.Leq, Upper, QuoteNotional, PairMatches;
    StyleIsItsWord(Get(f, "style"));
    StyleNamesDiffer(PlanOf(i, f).value.style);
  }

  /** A block names its product by the instrument and its settlement, and states its sides
      and exactly the terms of the schema. */
  lemma BlockStates(i: Instrument, f: Fields, direction: Raw, own: string, cp: string)
    requires ProductV2(i, f, direction, own, cp).Ok?
    ensures ProductV2(i, f, direction, own, cp).value.Obj? &&
      var block := ProductV2(i, f, direction, own, cp).value.fields;
      && block.Keys == {"product", "buyer", "seller"} + NamesStated(i, StyleWord(Get(f, "style")) == "EUROPEAN")
      && block["product"] == Json.Str(NameOf(i, Says(Get(f, "settlement_type"), {"NON_DELIVERABLE"})))
  {
    hide PlanOf, StateTerms, LateChecks, TermsOf, BuyerFirst, StyleWord, NamesStated, Says;
    var plan := PlanOf(i, f).value;
    PlanNamed(i, f);
    assert !Defaulted("settlement_type");
    PlanKeeps(i, f, "settlement_type");
    StatedIs(plan, TermsOf(i, plan.style));
    TermsNameNoSide(i, plan.style);
    StatesExactly(i, f, plan.style);
    assert NamesASide("product") && NamesASide("buyer") && NamesASide("seller");
  }

  lemma StatesExactly(i: Instrument, f: Fields, style: Style)
    requires PlanOf(i, f).Ok? && PlanOf(i, f).value.style == style
    ensures forall n :: n in TermsOf(i, style) <==> n in NamesStated(i, StyleWord(Get(f, "style")) == "EUROPEAN")
  {
    hide PlanOf, StyleWord, TermsOf;
    if i == CryptoOption { PlanIsEuropean(i, f); }
    forall n ensures n in TermsOf(i, style) <==> n in NamesStated(i, StyleWord(Get(f, "style")) == "EUROPEAN") {
      TermsAreTheNames(i, style, n);
    }
  }

  // ----- what a block says that was not booked -----

  predicate HasBarrier(style: string) {
    style == "BARRIER" || style == "DOUBLE_BARRIER" || style == "TOUCH"
  }

  lemma DefaultsRead(f: Fields, style: Style)
    ensures var terms := FxOptionTerms(f, style);
      && Get(terms, "style") == RText(StyleName(style))
      && ("exercise_style" !in f ==> Get(terms, "exercise_style") == RText(Exercise(style)))
      && ("automatic_exercise" !in f ==> Get(terms, "automatic_exercise") == RBool(true))
      && ("expiry_time" !in f ==> Get(terms, "expiry_time") == RText("10:00 New York"))
      && ("barrier_monitoring" !in f ==>
            Get(terms, "barrier_monitoring") == if HasBarrier(StyleName(style)) then RText("CONTINUOUS") else RNull)
  {
    hide Exercise;
  }

  lemma FxOptionPlanReads(f: Fields, n: string)
    requires FxOptionPlan(f).Ok? && n != "quote_notional"
    ensures StyleOf(Get(f, "style")).Ok? && FxOptionPlan(f).value.style == StyleOf(Get(f, "style")).value
    ensures Get(FxOptionPlan(f).value.terms, n) == Get(FxOptionTerms(f, FxOptionPlan(f).value.style), n)
  {
    hide Absent, Missing, Required, Number, Positive, Says, StyleChecks, FxOptionTerms, StyleOf, Json.Leq, Upper, Rounded, PairMatches;
  }

  lemma StylesInCapitals(style: Style)
    ensures Upper(StyleName(style)) == StyleName(style)
    ensures Exercise(style) == if StyleName(style) == "AMERICAN" then "AMERICAN" else "EUROPEAN"
  {
  }

  lemma DefaultsInCapitals(style: Style)
    ensures Upper("CONTINUOUS") == "CONTINUOUS" && Upper(Exercise(style)) == Exercise(style)
  {
  }

  lemma DefaultedKinds()
    ensures KindOf(FxOption, "style") == KindOf(FxOption, "exercise_style") == KindOf(FxOption, "barrier_monitoring") == Code
    ensures KindOf(FxOption, "automatic_exercise") == Flag && KindOf(FxOption, "expiry_time") == Plain
  {
  }

  /** A currency option states its style, and what the booking leaves open: the exercise its
      style has, automatic, at ten in New York, its barriers watched continuously. */
  lemma FxOptionDefaults(f: Fields)
    requires StatedTerms(FxOption, f).Ok?
    ensures var style := StyleWord(Get(f, "style")); var m := StatedTerms(FxOption, f).value;
      && {"style", "exercise_style", "automatic_exercise", "expiry_time", "barrier_monitoring"} <= m.Keys
      && m["style"] == Json.Str(style)
      && ("exercise_style" !in f ==> m["exercise_style"] == Json.Str(if style == "AMERICAN" then "AMERICAN" else "EUROPEAN"))
      && ("automatic_exercise" !in f ==> m["automatic_exercise"] == Json.Bool(true))
      && ("expiry_time" !in f ==> m["expiry_time"] == Json.Str("10:00 New York"))
      && ("barrier_monitoring" !in f ==>
            m["barrier_monitoring"] == if HasBarrier(style) then Json.Str("CONTINUOUS") else Json.Null)
  {
    hide FxOptionPlan, StateTerms, TermsOf, KindOf, StyleWord, FxOptionTerms, StyleOf, StyleName, Exercise, StatedTerms;
    FxOptionStates(f, "style");
    var style := PlanOf(FxOption, f).value.style;
    PlanIsEuropean(FxOption, f);
    DefaultsRead(f, style);
    StylesInCapitals(style);
    DefaultsInCapitals(style);
    DefaultedKinds();
    FxOptionStates(f, "exercise_style");
    FxOptionStates(f, "automatic_exercise");
    FxOptionStates(f, "expiry_time");
    FxOptionStates(f, "barrier_monitoring");
  }

  lemma FxOptionStates(f: Fields, n: string)
    requires StatedTerms(FxOption, f).Ok? && n in FXO_NAMES + STYLE_NAMES && n != "quote_notional"
    ensures PlanOf(FxOption, f).Ok? && n in StatedTerms(FxOption, f).value
    ensures var plan := PlanOf(FxOption, f).value;
      && plan.instrument == FxOption && Term(plan, n) == Ok(StatedTerms(FxOption, f).value[n])
      && Get(plan.terms, n) == Get(FxOptionTerms(f, plan.style), n)
  {
    hide FxOptionPlan, StateTerms, TermsOf, KindOf, FxOptionTerms, StyleOf, Term;
    var plan := FxOptionPlan(f).value;
    FxOptionReads(f, "strike");
    FxOptionPlanReads(f, n);
    TermsAreTheNames(FxOption, plan.style, n);
    StatedIs(plan, TermsOf(FxOption, plan.style));
  }
}
