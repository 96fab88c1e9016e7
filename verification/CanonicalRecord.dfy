/** The canonical trade record, schema version 2: one record for both parties, whichever
    of them booked the trade. */
module CanonicalRecord {
  import opened Decimals
  import opened Json
  import opened Options
  import opened ProductBookings
  import opened ProductRecord
  import opened RecordFields
  import opened StableSort

  // ----- embedded options -----

  function Oriented(option: Fields, s: Sides): Value {
    Obj(NormaliseAll((option - {"direction"})["buyer" := RText(s.first)]["seller" := RText(s.second)]))
  }

  function OptionV2(option: Fields, own: string, cp: string): Result<Value> {
    match SidesOf(Get(option, "direction"), own, cp, BUYS, SELLS)
    case Err(e) => Err(e)
    case Ok(s) => Ok(Oriented(option, s))
  }

  function Collect<A, B>(f: A -> Result<B>, xs: seq<A>): Result<seq<B>> {
    if xs == [] then Ok([])
    else
      match Collect(f, xs[..|xs| - 1])
      case Err(e) => Err(e)
      case Ok(ys) =>
        match f(xs[|xs| - 1])
        case Err(e) => Err(e)
        case Ok(y) => Ok(ys + [y])
  }

  function Content(v: Value): Key {
    [Print(v)]
  }

  function ByContent(r: Result<seq<Value>>): Result<seq<Value>> {
    if r.Ok? then Ok(Sorted(Content, r.value)) else r
  }

  function OptionsV2(options: seq<Fields>, own: string, cp: string): Result<seq<Value>> {
    ByContent(Collect((o: Fields) => OptionV2(o, own, cp), options))
  }

  method BuildOptionsV2(options: seq<Fields>, own: string, cp: string) returns (r: Result<seq<Value>>)
    ensures r == OptionsV2(options, own, cp)
  {
    var f := (o: Fields) => OptionV2(o, own, cp);
    var out: seq<Value> := [];
    var n := 0;
    while n < |options|
      invariant 0 <= n <= |options| && Collect(f, options[..n]) == Ok(out)
    {
      assert options[..n + 1][..n] == options[..n];
      var s := SidesOf(Get(options[n], "direction"), own, cp, BUYS, SELLS);
      if s.Err? {
        CollectStops(f, options, n + 1);
        return Err(s.error);
      }
      out := out + [Oriented(options[n], s.value)];
      n := n + 1;
    }
    assert options[..n] == options;
    r := Ok(Sorted(Content, out));
  }

  /** The first failure is the outcome. */
  lemma {:induction false} CollectStops<A, B>(f: A -> Result<B>, xs: seq<A>, n: nat)
    requires n <= |xs| && Collect(f, xs[..n]).Err?
    ensures Collect(f, xs) == Err(Collect(f, xs[..n]).error)
  {
    if n < |xs| {
      assert xs[..|xs| - 1][..n] == xs[..n];
      CollectStops(f, xs[..|xs| - 1], n);
    } else {
      assert xs[..n] == xs;
    }
  }

  // ----- custom cashflows -----

  /** A custom cashflow of a leg, its amount signed from the booker's side. */
  datatype Cashflow = Cashflow(fields: Fields, amount: Decimal)

  predicate Negative(d: Decimal) {
    d.negative && d.coefficient != 0
  }

  function CashflowV2(r: Cashflow, own: string, cp: string): Value {
    var s := if Negative(r.amount) then Sides(own, cp) else Sides(cp, own);
    Obj(Pick(r.fields, {"type", "payment_date", "accrual_start", "accrual_end", "currency"})
        ["amount" := Str(NumStr(r.amount.(negative := false)))]["payer" := Str(s.first)]["receiver" := Str(s.second)])
  }

  /** A text field of a row; null, absent or anything else sorts as empty text. */
  function Text(v: Value, name: string): string {
    if v.Obj? && name in v.fields && v.fields[name].Str? then v.fields[name].s else ""
  }

  function CashflowKey(v: Value): Key {
    [Text(v, "payment_date"), Text(v, "type"), Text(v, "payer"), Text(v, "amount")]
  }

  function CashflowRows(rows: seq<Cashflow>, own: string, cp: string): seq<Value> {
    seq(|rows|, i requires 0 <= i < |rows| => CashflowV2(rows[i], own, cp))
  }

  function CashflowsV2(rows: seq<Cashflow>, own: string, cp: string): seq<Value> {
    Sorted(CashflowKey, CashflowRows(rows, own, cp))
  }

  method BuildCashflowsV2(rows: seq<Cashflow>, own: string, cp: string) returns (r: seq<Value>)
    ensures r == CashflowsV2(rows, own, cp)
  {
    hide CashflowV2;
    var out: seq<Value> := [];
    var n := 0;
    while n < |rows|
      invariant 0 <= n <= |rows| && out == CashflowRows(rows, own, cp)[..n]
    {
      out := out + [CashflowV2(rows[n], own, cp)];
      n := n + 1;
    }
    assert out == CashflowRows(rows, own, cp);
    r := Sorted(CashflowKey, out);
  }

  // ----- legs -----

  datatype Leg = Leg(fields: Fields, direction: Raw, options: seq<Fields>, cashflows: seq<Cashflow>)

  const LEG_FIELDS: set<string> := {
    "leg_type", "currency", "notional", "notional_type", "notional_schedule",
    "effective_date", "maturity_date", "first_period_start", "last_period_end",
    "day_count", "payment_frequency", "reset_frequency", "bdc", "stub_type",
    "payment_calendar", "payment_lag", "fixed_rate", "fixed_rate_type", "fixed_rate_schedule",
    "spread", "spread_type", "spread_schedule", "leverage", "ois_compounding"
  }

  /** A leg as the record states it, with no trace of who booked it. */
  function Stated(terms: map<string, Value>, index: Value, s: Sides, options: seq<Value>, cashflows: seq<Value>): Value {
    Obj(terms["payer" := Str(s.first)]["receiver" := Str(s.second)]["index" := index]
        ["embedded_options" := List(options)]["custom_cashflows" := List(cashflows)])
  }

  function LegV2(l: Leg, own: string, cp: string): Result<Value> {
    match SidesOf(l.direction, own, cp, PAYS, GETS)
    case Err(e) => Err(e)
    case Ok(s) =>
      match OptionsV2(l.options, own, cp)
      case Err(e) => Err(e)
      case Ok(options) =>
        Ok(Stated(Pick(l.fields, LEG_FIELDS), Normalise(Get(l.fields, "forecast_curve_id")), s, options,
                  CashflowsV2(l.cashflows, own, cp)))
  }

  function LegsV2(legs: seq<Leg>, own: string, cp: string): Result<seq<Value>> {
    ByContent(Collect((l: Leg) => LegV2(l, own, cp), legs))
  }

  // ----- the record -----

  /** A trade as booked; a product's own terms and the booker's side of it are of no account
      when the trade is booked as legs. */
  datatype Trade = Trade(uti: Raw, fields: Fields, direction: Raw, terms: Fields)

  function ProductOf(trade: Trade): Option<Instrument> {
    InstrumentOf(Get(trade.fields, "instrument_type"))
  }

  const TRADE_FIELDS: set<string> := {
    "asset_class", "instrument_type", "structure", "notional", "notional_ccy", "trade_date", "effective_date", "maturity_date"
  }

  function Parties(own: string, cp: string): Value {
    if Leq(own, cp) then List([Str(own), Str(cp)]) else List([Str(cp), Str(own)])
  }

  function Record(trade: Trade, own: string, cp: string, block: string, content: Value): Value {
    Obj(map["schema" := Str("rijeka-trade"), "schema_version" := Num(2), "uti" := Normalise(trade.uti),
            "parties" := Parties(own, cp), "trade" := Obj(Pick(trade.fields, TRADE_FIELDS)), block := content])
  }

  function CheckParties(own: string, cp: string): Result<()> {
    if own == "" || cp == "" then Err(MissingLei) else if own == cp then Err(SameLei) else Ok(())
  }

  /** What the trade is: a product block, or legs sorted by content. */
  function Substance(trade: Trade, legs: seq<Leg>, own: string, cp: string): Result<Value> {
    match ProductOf(trade)
    case Some(i) => ProductV2(i, trade.terms, trade.direction, own, cp)
    case None =>
      match LegsV2(legs, own, cp)
      case Err(e) => Err(e)
      case Ok(ls) => Ok(List(ls))
  }

  function BlockName(trade: Trade): string {
    if ProductOf(trade).Some? then "product" else "legs"
  }

  /** The record of a trade booked by the party with LEI `own`. */
  function CanonicalV2(trade: Trade, legs: seq<Leg>, own: string, cp: string): Result<Value> {
    match CheckParties(own, cp)
    case Err(e) => Err(e)
    case Ok(_) =>
      match Substance(trade, legs, own, cp)
      case Err(e) => Err(e)
      case Ok(x) => Ok(Record(trade, own, cp, BlockName(trade), x))
  }

  method BuildCanonicalV2(trade: Trade, legs: seq<Leg>, own: string, cp: string) returns (r: Result<Value>)
    ensures r == CanonicalV2(trade, legs, own, cp)
  {
    hide Record, Stated, SidesOf, OptionsV2, CashflowsV2, Pick;
    var parties := CheckParties(own, cp);
    if parties.Err? { return Err(parties.error); }
    if ProductOf(trade).Some? {
      var product := BuildProductV2(ProductOf(trade).value, trade.terms, trade.direction, own, cp);
      if product.Err? { return Err(product.error); }
      return Ok(Record(trade, own, cp, "product", product.value));
    }
    var f := (l: Leg) => LegV2(l, own, cp);
    var out: seq<Value> := [];
    var n := 0;
    while n < |legs|
      invariant 0 <= n <= |legs| && Collect(f, legs[..n]) == Ok(out)
    {
      assert legs[..n + 1][..n] == legs[..n];
      var leg := BuildLegV2(legs[n], own, cp);
      if leg.Err? {
        CollectStops(f, legs, n + 1);
        return Err(leg.error);
      }
      out := out + [leg.value];
      n := n + 1;
    }
    assert legs[..n] == legs;
    r := Ok(Record(trade, own, cp, "legs", List(Sorted(Content, out))));
  }

  method BuildLegV2(l: Leg, own: string, cp: string) returns (r: Result<Value>)
    ensures r == LegV2(l, own, cp)
  {
    hide Stated, SidesOf, OptionsV2, CashflowsV2, Pick;
    var s := SidesOf(l.direction, own, cp, PAYS, GETS);
    if s.Err? { return Err(s.error); }
    var terms, index := Pick(l.fields, LEG_FIELDS), Normalise(Get(l.fields, "forecast_curve_id"));
    var options := BuildOptionsV2(l.options, own, cp);
    if options.Err? { return Err(options.error); }
    var cashflows := BuildCashflowsV2(l.cashflows, own, cp);
    r := Ok(Stated(terms, index, s.value, options.value, cashflows));
  }

  // ----- sorting by content -----

  lemma ContentIdentifies(s: seq<Value>)
    ensures KeyIdentifies(Content, s)
  {
    forall x, y | x in s && y in s && Content(x) == Content(y) ensures x == y {
      assert Content(x)[0] == Content(y)[0];
      PrintInjective(x, y);
    }
  }

  /** Lists sorted by content are equal exactly when they hold the same rows. */
  lemma ByContentIff(s: seq<Value>, t: seq<Value>)
    ensures Sorted(Content, s) == Sorted(Content, t) <==> multiset(s) == multiset(t)
  {
    ContentIdentifies(s);
    SortByContent(Content, s, t);
  }

  // ----- the other side's booking -----

  ghost predicate MirrorOption(o: Fields, p: Fields) {
    && o - {"direction"} == p - {"direction"}
    && Opposite(Get(o, "direction"), Get(p, "direction"), BUYS, SELLS)
  }

  /** The amount booked by the other side; an amount of zero has no side. */
  ghost predicate MirrorCashflow(r: Cashflow, q: Cashflow) {
    r.fields == q.fields && r.amount.coefficient != 0 && q.amount == r.amount.(negative := !r.amount.negative)
  }

  ghost predicate MirrorOptions(os: seq<Fields>, ps: seq<Fields>) {
    |os| == |ps| && forall i :: 0 <= i < |os| ==> MirrorOption(os[i], ps[i])
  }

  ghost predicate MirrorCashflows(rs: seq<Cashflow>, qs: seq<Cashflow>) {
    |rs| == |qs| && forall i :: 0 <= i < |rs| ==> MirrorCashflow(rs[i], qs[i])
  }

  /** `m` states the terms of `l` from the other side, its options in any order. */
  ghost predicate MirrorLeg(l: Leg, m: Leg) {
    && Pick(l.fields, LEG_FIELDS) == Pick(m.fields, LEG_FIELDS)
    && Normalise(Get(l.fields, "forecast_curve_id")) == Normalise(Get(m.fields, "forecast_curve_id"))
    && Opposite(l.direction, m.direction, PAYS, GETS)
    && MirrorCashflows(l.cashflows, m.cashflows)
    && exists arranged :: MirrorOptions(l.options, arranged) && multiset(arranged) == multiset(m.options)
  }

  ghost predicate MirrorLegs(ls: seq<Leg>, ms: seq<Leg>) {
    |ls| == |ms| && forall i :: 0 <= i < |ls| ==> MirrorLeg(ls[i], ms[i])
  }

  ghost predicate MirrorTrade(t: Trade, u: Trade) {
    Normalise(t.uti) == Normalise(u.uti) && Pick(t.fields, TRADE_FIELDS) == Pick(u.fields, TRADE_FIELDS)
  }

  lemma OptionMirrors(o: Fields, p: Fields, own: string, cp: string)
    requires MirrorOption(o, p)
    ensures OptionV2(o, own, cp) == OptionV2(p, cp, own) && OptionV2(o, own, cp).Ok?
  {
  }

  lemma {:induction false} CollectSame<A, B>(f: A -> Result<B>, g: A -> Result<B>, xs: seq<A>, ys: seq<A>)
    requires |xs| == |ys| && forall i :: 0 <= i < |xs| ==> f(xs[i]) == g(ys[i]) && f(xs[i]).Ok?
    ensures Collect(f, xs) == Collect(g, ys) && Collect(f, xs).Ok?
  {
    if xs != [] { CollectSame(f, g, xs[..|xs| - 1], ys[..|ys| - 1]); }
  }

  /** Without a failure the results are the images, in order. */
  lemma {:induction false} CollectOk<A, B>(f: A -> Result<B>, xs: seq<A>)
    requires forall x :: x in xs ==> f(x).Ok?
    ensures Collect(f, xs).Ok? && |Collect(f, xs).value| == |xs|
    ensures forall i :: 0 <= i < |xs| ==> Ok(Collect(f, xs).value[i]) == f(xs[i])
  {
    if xs != [] { CollectOk(f, xs[..|xs| - 1]); }
  }

  /** The rows a multiset of bookings gives do not depend on their order. */
  lemma {:induction false} CollectPermuted<A, B>(f: A -> Result<B>, xs: seq<A>, ys: seq<A>)
    requires multiset(xs) == multiset(ys) && Collect(f, xs).Ok?
    ensures Collect(f, ys).Ok? && multiset(Collect(f, xs).value) == multiset(Collect(f, ys).value)
  {
    if xs == [] {
      assert |multiset(ys)| == 0;
      assert ys == [];
    } else {
      var rest, x := xs[..|xs| - 1], xs[|xs| - 1];
      var before, after := TakeOut(xs, ys);
      assert Collect(f, xs).value == Collect(f, rest).value + [f(x).value];
      CollectPermuted(f, rest, before + after);
      hide Collect;
      PutBack(f, before, x, after);
    }
  }

  lemma TakeOut<A>(xs: seq<A>, ys: seq<A>) returns (before: seq<A>, after: seq<A>)
    requires multiset(xs) == multiset(ys) && xs != []
    ensures ys == before + [xs[|xs| - 1]] + after && multiset(xs[..|xs| - 1]) == multiset(before + after)
  {
    var rest, x := xs[..|xs| - 1], xs[|xs| - 1];
    assert xs == rest + [x];
    assert x in multiset(ys);
    var i :| 0 <= i < |ys| && ys[i] == x;
    before, after := ys[..i], ys[i + 1..];
    assert ys == before + [x] + after;
    assert multiset(rest) == multiset(xs) - multiset{x};
    assert multiset(before + after) == multiset(ys) - multiset{x};
  }

  lemma PutBack<A, B>(f: A -> Result<B>, before: seq<A>, x: A, after: seq<A>)
    requires Collect(f, before + after).Ok? && f(x).Ok?
    ensures Collect(f, before + [x] + after).Ok?
    ensures multiset(Collect(f, before + [x] + after).value) == multiset(Collect(f, before + after).value) + multiset{f(x).value}
  {
    CollectSplit(f, before, after);
    CollectSplit(f, before + [x], after);
    assert (before + [x])[..|before|] == before;
  }

  lemma {:induction false} CollectSplit<A, B>(f: A -> Result<B>, xs: seq<A>, ys: seq<A>)
    ensures Collect(f, xs + ys).Ok? <==> Collect(f, xs).Ok? && Collect(f, ys).Ok?
    ensures Collect(f, xs + ys).Ok? ==> Collect(f, xs + ys).value == Collect(f, xs).value + Collect(f, ys).value
  {
    if ys == [] {
      assert xs + ys == xs;
    } else {
      var n := |ys| - 1;
      assert (xs + ys)[..|xs + ys| - 1] == xs + ys[..n];
      CollectSplit(f, xs, ys[..n]);
    }
  }

  /** Sorted by content, the outcome does not depend on the order of the bookings. */
  lemma OrderIsNoMatter<A>(f: A -> Result<Value>, xs: seq<A>, ys: seq<A>)
    requires multiset(xs) == multiset(ys) && Collect(f, xs).Ok?
    ensures ByContent(Collect(f, xs)) == ByContent(Collect(f, ys))
  {
    CollectPermuted(f, xs, ys);
    ByContentIff(Collect(f, xs).value, Collect(f, ys).value);
  }

  lemma OptionsMirror(os: seq<Fields>, arranged: seq<Fields>, ps: seq<Fields>, own: string, cp: string)
    requires MirrorOptions(os, arranged) && multiset(arranged) == multiset(ps)
    ensures OptionsV2(os, own, cp) == OptionsV2(ps, cp, own) && OptionsV2(os, own, cp).Ok?
  {
    hide OptionV2;
    var f, g := (o: Fields) => OptionV2(o, own, cp), (o: Fields) => OptionV2(o, cp, own);
    forall i | 0 <= i < |os| ensures f(os[i]) == g(arranged[i]) && f(os[i]).Ok? {
      OptionMirrors(os[i], arranged[i], own, cp);
    }
    CollectSame(f, g, os, arranged);
    OrderIsNoMatter(g, arranged, ps);
  }

  lemma CashflowsMirror(rs: seq<Cashflow>, qs: seq<Cashflow>, own: string, cp: string)
    requires MirrorCashflows(rs, qs)
    ensures CashflowsV2(rs, own, cp) == CashflowsV2(qs, cp, own)
  {
    hide Pick;
    forall i | 0 <= i < |rs| ensures CashflowV2(rs[i], own, cp) == CashflowV2(qs[i], cp, own) {
      assert MirrorCashflow(rs[i], qs[i]);
    }
    hide CashflowV2;
    assert CashflowRows(rs, own, cp) == CashflowRows(qs, cp, own);
  }

  lemma LegMirrors(l: Leg, m: Leg, own: string, cp: string)
    requires MirrorLeg(l, m)
    ensures LegV2(l, own, cp) == LegV2(m, cp, own) && LegV2(l, own, cp).Ok?
  {
    hide Pick, OptionsV2, CashflowsV2, Stated;
    var arranged :| MirrorOptions(l.options, arranged) && multiset(arranged) == multiset(m.options);
    OppositeSides(l.direction, m.direction, own, cp, PAYS, GETS);
    OptionsMirror(l.options, arranged, m.options, own, cp);
    CashflowsMirror(l.cashflows, m.cashflows, own, cp);
  }

  lemma PartiesUnordered(own: string, cp: string)
    ensures Parties(own, cp) == Parties(cp, own)
  {
    LeqTotal(own, cp);
  }

  lemma LegsMirror(legs: seq<Leg>, arranged: seq<Leg>, booked: seq<Leg>, own: string, cp: string)
    requires MirrorLegs(legs, arranged) && multiset(arranged) == multiset(booked)
    ensures LegsV2(legs, own, cp) == LegsV2(booked, cp, own) && LegsV2(legs, own, cp).Ok?
  {
    hide LegV2, Pick;
    var f, g := (l: Leg) => LegV2(l, own, cp), (l: Leg) => LegV2(l, cp, own);
    forall i | 0 <= i < |legs| ensures f(legs[i]) == g(arranged[i]) && f(legs[i]).Ok? {
      assert MirrorLeg(legs[i], arranged[i]);
      LegMirrors(legs[i], arranged[i], own, cp);
    }
    CollectSame(f, g, legs, arranged);
    OrderIsNoMatter(g, arranged, booked);
  }

  /** One trade booked from both sides: every direction opposite, every non-zero cashflow
      negated, legs and options in any order, or a product's terms spelled in any way. */
  ghost predicate MirrorBooking(t: Trade, legs: seq<Leg>, u: Trade, booked: seq<Leg>) {
    && MirrorTrade(t, u)
    && match ProductOf(t)
       case Some(i) => Opposite(t.direction, u.direction, BUYS, SELLS) && Alike(i, t.terms, u.terms)
       case None => exists arranged :: MirrorLegs(legs, arranged) && multiset(arranged) == multiset(booked)
  }

  lemma SameProduct(t: Trade, u: Trade)
    requires MirrorTrade(t, u)
    ensures ProductOf(t) == ProductOf(u)
  {
    hide InstrumentOf, Normalise;
    assert "instrument_type" in TRADE_FIELDS;
    assert Pick(t.fields, TRADE_FIELDS)["instrument_type"] == Pick(u.fields, TRADE_FIELDS)["instrument_type"];
    InstrumentIsWritten(Get(t.fields, "instrument_type"), Get(u.fields, "instrument_type"));
  }

  /** Both parties' bookings of one trade give the identical record. A product that one side
      cannot record, the other cannot either, for the same reason. */
  lemma SideIndependent(t: Trade, legs: seq<Leg>, u: Trade, booked: seq<Leg>, own: string, cp: string)
    requires MirrorBooking(t, legs, u, booked)
    ensures CanonicalV2(t, legs, own, cp) == CanonicalV2(u, booked, cp, own)
    ensures ProductOf(t).None? ==> (CanonicalV2(t, legs, own, cp).Ok? <==> own != "" && cp != "" && own != cp)
  {
    hide LegsV2, ProductV2, InstrumentOf, Alike, Opposite, Pick, MirrorLegs;
    SameProduct(t, u);
    PartiesUnordered(own, cp);
    match ProductOf(t)
    case Some(i) =>
      OppositeSides(t.direction, u.direction, own, cp, BUYS, SELLS);
      SpellingIsNoMatter(i, t.terms, t.direction, own, cp, u.terms, u.direction, cp, own);
    case None =>
      var arranged :| MirrorLegs(legs, arranged) && multiset(arranged) == multiset(booked);
      LegsMirror(legs, arranged, booked, own, cp);
  }

  // ----- and nothing more -----

  lemma PartiesIff(own: string, cp: string, own': string, cp': string)
    ensures Parties(own, cp) == Parties(own', cp') <==> {own, cp} == {own', cp'}
  {
    LeqTotal(own, cp);
    LeqTotal(own', cp');
    var ps, qs := Parties(own, cp).items, Parties(own', cp').items;
    if {own, cp} == {own', cp'} {
      assert own in {own', cp'} && cp in {own', cp'} && own' in {own, cp} && cp' in {own, cp};
    }
    if Parties(own, cp) == Parties(own', cp') {
      assert ps[0] == qs[0] && ps[1] == qs[1];
    }
  }

  lemma RecordIff(t: Trade, own: string, cp: string, block: string, x: Value, u: Trade, own': string, cp': string, block': string, y: Value)
    requires (block == "legs" || block == "product") && (block' == "legs" || block' == "product")
    ensures Record(t, own, cp, block, x) == Record(u, own', cp', block', y)
      <==> (MirrorTrade(t, u) && {own, cp} == {own', cp'} && block == block' && x == y)
  {
    hide Pick, Normalise;
    PartiesIff(own, cp, own', cp');
    var a, b := Record(t, own, cp, block, x).fields, Record(u, own', cp', block', y).fields;
    assert a[block] == x && b[block'] == y;
    assert block != block' ==> block in a && block !in b;
    assert a["uti"] == Normalise(t.uti) && b["uti"] == Normalise(u.uti);
    assert a["parties"] == Parties(own, cp) && b["parties"] == Parties(own', cp');
    assert a["trade"] == Obj(Pick(t.fields, TRADE_FIELDS)) && b["trade"] == Obj(Pick(u.fields, TRADE_FIELDS));
    hide Parties;
  }

  /** The legs of a booking as the record states them, before they are sorted. */
  function StatedLegs(legs: seq<Leg>, own: string, cp: string): Result<seq<Value>> {
    Collect((l: Leg) => LegV2(l, own, cp), legs)
  }

  /** What the parties agree to: the same product, however each spelled it, or the same legs
      whatever their order. */
  ghost predicate SameSubstance(t: Trade, legs: seq<Leg>, own: string, cp: string, u: Trade, legs': seq<Leg>, own': string, cp': string)
    requires Substance(t, legs, own, cp).Ok? && Substance(u, legs', own', cp').Ok? && ProductOf(t) == ProductOf(u)
  {
    match ProductOf(t)
    case Some(i) =>
      && SameBooking(PlanOf(i, t.terms).value, PlanOf(i, u.terms).value)
      && BuyerFirst(t.direction, own, cp) == BuyerFirst(u.direction, own', cp')
    case None => multiset(StatedLegs(legs, own, cp).value) == multiset(StatedLegs(legs', own', cp').value)
  }

  lemma SubstanceIff(t: Trade, legs: seq<Leg>, own: string, cp: string, u: Trade, legs': seq<Leg>, own': string, cp': string)
    requires Substance(t, legs, own, cp).Ok? && Substance(u, legs', own', cp').Ok? && ProductOf(t) == ProductOf(u)
    ensures Substance(t, legs, own, cp) == Substance(u, legs', own', cp')
      <==> SameSubstance(t, legs, own, cp, u, legs', own', cp')
  {
    hide LegV2, ProductV2, InstrumentOf, SameBooking, BuyerFirst;
    match ProductOf(t)
    case Some(i) => SameBookingIff(i, t.terms, t.direction, own, cp, u.terms, u.direction, own', cp');
    case None =>
      ByContentIff(StatedLegs(legs, own, cp).value, StatedLegs(legs', own', cp').value);
  }

  /** Two bookings have the same canonical text exactly when UTI, parties, trade fields and
      substance agree. */
  lemma SameRecordIff(t: Trade, legs: seq<Leg>, own: string, cp: string, u: Trade, legs': seq<Leg>, own': string, cp': string)
    requires CanonicalV2(t, legs, own, cp).Ok? && CanonicalV2(u, legs', own', cp').Ok?
    ensures Print(CanonicalV2(t, legs, own, cp).value) == Print(CanonicalV2(u, legs', own', cp').value)
      <==> (MirrorTrade(t, u) && {own, cp} == {own', cp'} && ProductOf(t) == ProductOf(u)
        && SameSubstance(t, legs, own, cp, u, legs', own', cp'))
  {
    hide Substance, Record, Print, MirrorTrade, InstrumentOf, SameSubstance;
    var a, b := CanonicalV2(t, legs, own, cp).value, CanonicalV2(u, legs', own', cp').value;
    var x, y := Substance(t, legs, own, cp).value, Substance(u, legs', own', cp').value;
    if MirrorTrade(t, u) { SameProduct(t, u); }
    if ProductOf(t) == ProductOf(u) { SubstanceIff(t, legs, own, cp, u, legs', own', cp'); }
    RecordIff(t, own, cp, BlockName(t), x, u, own', cp', BlockName(u), y);
    if Print(a) == Print(b) { PrintInjective(a, b); }
  }

  lemma StatedIff(p: map<string, Value>, i: Value, s: Sides, o: seq<Value>, c: seq<Value>,
      p': map<string, Value>, i': Value, s': Sides, o': seq<Value>, c': seq<Value>)
    requires p.Keys == p'.Keys && p.Keys !! {"index", "payer", "receiver", "embedded_options", "custom_cashflows"}
    ensures Stated(p, i, s, o, c) == Stated(p', i', s', o', c') <==> p == p' && i == i' && s == s' && o == o' && c == c'
  {
    var a, b := Stated(p, i, s, o, c).fields, Stated(p', i', s', o', c').fields;
    assert a["index"] == i && b["index"] == i';
    assert a["payer"] == Str(s.first) && b["payer"] == Str(s'.first);
    assert a["receiver"] == Str(s.second) && b["receiver"] == Str(s'.second);
    assert a["embedded_options"] == List(o) && b["embedded_options"] == List(o');
    assert a["custom_cashflows"] == List(c) && b["custom_cashflows"] == List(c');
    if a == b {
      forall k | k in p.Keys ensures p[k] == p'[k] {
        assert a[k] == p[k] && b[k] == p'[k];
      }
    }
  }

  /** Two legs are stated alike exactly when their economic fields, index and sides agree,
      their oriented options are the same multiset, and their oriented cashflows are the
      same rows with ties of the sort key in the same order. */
  lemma SameLegIff(l: Leg, own: string, cp: string, m: Leg, own': string, cp': string)
    requires LegV2(l, own, cp).Ok? && LegV2(m, own', cp').Ok?
    ensures LegV2(l, own, cp) == LegV2(m, own', cp') <==>
      && Pick(l.fields, LEG_FIELDS) == Pick(m.fields, LEG_FIELDS)
      && Normalise(Get(l.fields, "forecast_curve_id")) == Normalise(Get(m.fields, "forecast_curve_id"))
      && SidesOf(l.direction, own, cp, PAYS, GETS) == SidesOf(m.direction, own', cp', PAYS, GETS)
      && multiset(StatedOptions(l.options, own, cp).value) == multiset(StatedOptions(m.options, own', cp').value)
      && SameOrder(CashflowKey, CashflowRows(l.cashflows, own, cp), CashflowRows(m.cashflows, own', cp'))
  {
    hide Stated, OptionV2, SidesOf, CashflowRows, Pick, Normalise;
    var o, o' := StatedOptions(l.options, own, cp).value, StatedOptions(m.options, own', cp').value;
    var c, c' := CashflowRows(l.cashflows, own, cp), CashflowRows(m.cashflows, own', cp');
    var p, p' := Pick(l.fields, LEG_FIELDS), Pick(m.fields, LEG_FIELDS);
    var i, i' := Normalise(Get(l.fields, "forecast_curve_id")), Normalise(Get(m.fields, "forecast_curve_id"));
    var s, s' := SidesOf(l.direction, own, cp, PAYS, GETS).value, SidesOf(m.direction, own', cp', PAYS, GETS).value;
    assert LegV2(l, own, cp) == Ok(Stated(p, i, s, Sorted(Content, o), Sorted(CashflowKey, c)));
    assert LegV2(m, own', cp') == Ok(Stated(p', i', s', Sorted(Content, o'), Sorted(CashflowKey, c')));
    hide LegV2, StatedOptions, Sorted, SameOrder;
    ByContentIff(o, o');
    SortAlikeIff(CashflowKey, c, c');
    PickKeys(l.fields, m.fields);
    StatedIff(p, i, s, Sorted(Content, o), Sorted(CashflowKey, c), p', i', s', Sorted(Content, o'), Sorted(CashflowKey, c'));
  }

  lemma PickKeys(f: Fields, g: Fields)
    ensures Pick(f, LEG_FIELDS).Keys == LEG_FIELDS == Pick(g, LEG_FIELDS).Keys
    ensures LEG_FIELDS !! {"index", "payer", "receiver", "embedded_options", "custom_cashflows"}
  {
    hide Normalise;
    KeysOfPick(f, LEG_FIELDS);
    KeysOfPick(g, LEG_FIELDS);
    AddedNamesAreNew();
  }

  lemma KeysOfPick(f: Fields, names: set<string>)
    ensures Pick(f, names).Keys == names
  {
  }

  lemma AddedNamesAreNew()
    ensures LEG_FIELDS !! {"index", "payer", "receiver", "embedded_options", "custom_cashflows"}
  {
  }

  function StatedOptions(options: seq<Fields>, own: string, cp: string): Result<seq<Value>> {
    Collect((o: Fields) => OptionV2(o, own, cp), options)
  }

  // ----- where the other side's cashflow is not a mirror -----

  /** Negating an amount mirrors it exactly when it is not zero. */
  lemma CashflowMirrorsIff(r: Cashflow, own: string, cp: string)
    requires own != cp
    ensures CashflowV2(r, own, cp) == CashflowV2(r.(amount := r.amount.(negative := !r.amount.negative)), cp, own)
      <==> r.amount.coefficient != 0
  {
    hide Pick, NumStr;
    var q := r.(amount := r.amount.(negative := !r.amount.negative));
    var a, b := CashflowV2(r, own, cp).fields, CashflowV2(q, cp, own).fields;
    assert a["payer"] == Str(if Negative(r.amount) then own else cp);
    assert b["payer"] == Str(if Negative(q.amount) then cp else own);
  }

  lemma RowsPermuted(rs: seq<Cashflow>, qs: seq<Cashflow>, own: string, cp: string)
    requires multiset(rs) == multiset(qs)
    ensures multiset(CashflowRows(rs, own, cp)) == multiset(CashflowRows(qs, own, cp))
  {
    hide CashflowV2;
    var f := (r: Cashflow) => Ok(CashflowV2(r, own, cp));
    CollectOk(f, rs);
    CollectOk(f, qs);
    CollectPermuted(f, rs, qs);
    assert Collect(f, rs).value == CashflowRows(rs, own, cp) && Collect(f, qs).value == CashflowRows(qs, own, cp);
  }

  /** The order of booking matters to no list of these rows. */
  ghost predicate OrderIsFree(rs: seq<Cashflow>, own: string, cp: string) {
    forall qs :: multiset(qs) == multiset(rs) ==> CashflowsV2(qs, own, cp) == CashflowsV2(rs, own, cp)
  }

  lemma AnyOrderAlike(rs: seq<Cashflow>, own: string, cp: string)
    requires KeyIdentifies(CashflowKey, CashflowRows(rs, own, cp))
    ensures OrderIsFree(rs, own, cp)
  {
    hide CashflowRows, CashflowKey, Sorted, KeyIdentifies;
    forall qs | multiset(qs) == multiset(rs) ensures CashflowsV2(qs, own, cp) == CashflowsV2(rs, own, cp) {
      RowsPermuted(rs, qs, own, cp);
      SortByContent(CashflowKey, CashflowRows(rs, own, cp), CashflowRows(qs, own, cp));
    }
  }

  lemma RowsOfPair(r: Cashflow, q: Cashflow, rest: seq<Cashflow>, own: string, cp: string)
    ensures CashflowRows([r, q] + rest, own, cp) == [CashflowV2(r, own, cp), CashflowV2(q, own, cp)] + CashflowRows(rest, own, cp)
  {
    hide CashflowV2;
  }

  lemma NotFree(rs: seq<Cashflow>, one: seq<Cashflow>, two: seq<Cashflow>, own: string, cp: string)
    requires multiset(one) == multiset(rs) == multiset(two) && CashflowsV2(one, own, cp) != CashflowsV2(two, own, cp)
    ensures !OrderIsFree(rs, own, cp)
  {
    hide CashflowsV2;
  }

  lemma TiedOrderMatters(rs: seq<Cashflow>, i: nat, j: nat, own: string, cp: string)
    requires i < |rs| && j < |rs|
    requires CashflowV2(rs[i], own, cp) != CashflowV2(rs[j], own, cp)
    requires CashflowKey(CashflowV2(rs[i], own, cp)) == CashflowKey(CashflowV2(rs[j], own, cp))
    ensures !OrderIsFree(rs, own, cp)
  {
    hide CashflowV2, CashflowKey, CashflowRows, Sorted;
    var rest := PairFirst(rs, i, j);
    var one, two := [rs[i], rs[j]] + rest, [rs[j], rs[i]] + rest;
    RowsOfPair(rs[i], rs[j], rest, own, cp);
    RowsOfPair(rs[j], rs[i], rest, own, cp);
    TiesKeepTheirOrder(CashflowKey, CashflowV2(rs[i], own, cp), CashflowV2(rs[j], own, cp), CashflowRows(rest, own, cp));
    hide CashflowsV2;
    NotFree(rs, one, two, own, cp);
  }

  /** Cashflows may be booked in any order exactly when rows with equal sort keys are equal:
      the key leaves out the accrual dates and the currency. */
  lemma CashflowOrderIsFreeIff(rs: seq<Cashflow>, own: string, cp: string)
    ensures OrderIsFree(rs, own, cp) <==> KeyIdentifies(CashflowKey, CashflowRows(rs, own, cp))
  {
    hide CashflowV2, CashflowKey, CashflowsV2, OrderIsFree;
    var rows := CashflowRows(rs, own, cp);
    if KeyIdentifies(CashflowKey, rows) {
      AnyOrderAlike(rs, own, cp);
    } else {
      var x, y :| x in rows && y in rows && CashflowKey(x) == CashflowKey(y) && x != y;
      var i :| 0 <= i < |rows| && rows[i] == x;
      var j :| 0 <= j < |rows| && rows[j] == y;
      TiedOrderMatters(rs, i, j, own, cp);
    }
  }

  // ----- who pays and who buys -----

  /** A leg booked as PAY is paid by the booker and received by the counterparty, one booked
      as RECEIVE the other way round; nothing else can be booked. */
  lemma LegNamesItsSides(l: Leg, own: string, cp: string)
    requires LegV2(l, own, cp).Ok?
    ensures Says(l.direction, {"PAY"}) || Says(l.direction, {"RECEIVE"})
    ensures LegV2(l, own, cp).value.Obj? &&
      var leg := LegV2(l, own, cp).value.fields;
      "payer" in leg && "receiver" in leg &&
      if Says(l.direction, {"PAY"}) then leg["payer"] == Str(own) && leg["receiver"] == Str(cp)
      else leg["payer"] == Str(cp) && leg["receiver"] == Str(own)
  {
    hide Pick, OptionsV2, CashflowsV2, Normalise;
  }

  /** The buyer of an option booked as BUY or LONG is the booker, of one booked as SELL or
      SHORT the counterparty. */
  lemma OptionNamesItsSides(o: Fields, own: string, cp: string)
    requires OptionV2(o, own, cp).Ok?
    ensures Says(Get(o, "direction"), {"BUY", "LONG"}) || Says(Get(o, "direction"), {"SELL", "SHORT"})
    ensures OptionV2(o, own, cp).value.Obj? &&
      var option := OptionV2(o, own, cp).value.fields;
      "buyer" in option && "seller" in option && "direction" !in option &&
      if Says(Get(o, "direction"), {"BUY", "LONG"}) then option["buyer"] == Str(own) && option["seller"] == Str(cp)
      else option["buyer"] == Str(cp) && option["seller"] == Str(own)
  {
    assert "buyer" != "seller" && "direction" != "buyer" && "direction" != "seller";
  }

  /** A negative amount is paid by the booker, any other by the counterparty, and the amount
      is stated without its sign. */
  lemma CashflowNamesItsSides(r: Cashflow, own: string, cp: string)
    ensures CashflowV2(r, own, cp).Obj? &&
      var row := CashflowV2(r, own, cp).fields;
      "payer" in row && "receiver" in row && "amount" in row &&
      row["amount"] == Str(NumStr(Decimal(false, r.amount.coefficient, r.amount.exponent))) &&
      if r.amount.negative && r.amount.coefficient > 0 then row["payer"] == Str(own) && row["receiver"] == Str(cp)
      else row["payer"] == Str(cp) && row["receiver"] == Str(own)
  {
    hide Pick, NumStr;
  }

  /** The record holds each leg as it is stated, with its payer. */
  lemma RecordNamesThePayer(t: Trade, legs: seq<Leg>, own: string, cp: string, l: Leg)
    requires CanonicalV2(t, legs, own, cp).Ok? && ProductOf(t).None? && l in legs
    ensures LegV2(l, own, cp).Ok?
    ensures CanonicalV2(t, legs, own, cp).value.Obj? &&
      var record := CanonicalV2(t, legs, own, cp).value.fields;
      "legs" in record && record["legs"].List? && LegV2(l, own, cp).value in record["legs"].items
  {
    hide LegV2, Pick, InstrumentOf, Parties;
    var f := (l: Leg) => LegV2(l, own, cp);
    CollectHolds(f, legs, l);
    var stated := Collect(f, legs).value;
    assert LegV2(l, own, cp).value in multiset(Sorted(Content, stated));
  }

  lemma {:induction false} CollectHolds<A, B>(f: A -> Result<B>, xs: seq<A>, x: A)
    requires Collect(f, xs).Ok? && x in xs
    ensures f(x).Ok? && f(x).value in Collect(f, xs).value
  {
    var init := xs[..|xs| - 1];
    assert xs == init + [xs[|xs| - 1]];
    if x in init { CollectHolds(f, init, x); }
  }

  // ----- what a record says -----

  /** The economic terms of a leg, in the words of the schema. */
  const LEG_TERMS: seq<string> := [
    "leg_type", "currency", "notional", "notional_type", "notional_schedule", "effective_date", "maturity_date",
    "first_period_start", "last_period_end", "day_count", "payment_frequency", "reset_frequency", "bdc", "stub_type",
    "payment_calendar", "payment_lag", "fixed_rate", "fixed_rate_type", "fixed_rate_schedule", "spread", "spread_type",
    "spread_schedule", "leverage", "ois_compounding"]

  /** Each of them is in the record, so that two legs that differ in one are never stated
      alike, whoever books them. */
  lemma EveryTermCounts(l: Leg, own: string, cp: string, m: Leg, own': string, cp': string, n: string)
    requires LegV2(l, own, cp).Ok? && LegV2(m, own', cp').Ok? && n in LEG_TERMS
    requires Normalise(Get(l.fields, n)) != Normalise(Get(m.fields, n))
    ensures LegV2(l, own, cp) != LegV2(m, own', cp')
  {
    hide SidesOf, StatedOptions, CashflowRows, SameOrder, Normalise, LegV2;
    SameLegIff(l, own, cp, m, own', cp');
    LegTermsArePicked(n);
    assert Pick(l.fields, LEG_FIELDS)[n] == Normalise(Get(l.fields, n)) && Pick(m.fields, LEG_FIELDS)[n] == Normalise(Get(m.fields, n));
  }

  lemma LegTermsArePicked(n: string)
    ensures n in LEG_TERMS <==> n in LEG_FIELDS
  {
  }

  /** The record has six fields, and states its schema as version 2 of rijeka-trade. */
  lemma RecordFieldsAre(t: Trade, legs: seq<Leg>, own: string, cp: string)
    requires CanonicalV2(t, legs, own, cp).Ok?
    ensures CanonicalV2(t, legs, own, cp).value.Obj? &&
      var record := CanonicalV2(t, legs, own, cp).value.fields;
      record.Keys == {"schema", "schema_version", "uti", "parties", "trade", if ProductOf(t).Some? then "product" else "legs"}
      && record["schema"] == Str("rijeka-trade") && record["schema_version"] == Num(2) && record["trade"].Obj?
      && record["trade"].fields.Keys == {"asset_class", "instrument_type", "structure", "notional", "notional_ccy",
                                         "trade_date", "effective_date", "maturity_date"}
  {
    hide Substance, Parties, Normalise, InstrumentOf;
    KeysOfPick(t.fields, TRADE_FIELDS);
  }
}
