/** What a record says of what was booked: each field as it stands, the parties and the
    cashflows in order, and nothing else. */
module RecordMeaning {
  import opened CanonicalRecord
  import opened Decimals
  import opened Json
  import opened Options
  import opened ProductRecord
  import opened RecordFields
  import opened StableSort

  // ----- the order of texts -----

  /** The first difference of two texts is at `i`, where the first has the lower code point. */
  predicate LowerAt(a: string, b: string, i: nat) {
    i < |a| && i < |b| && a[..i] == b[..i] && a[i] < b[i]
  }

  /** Texts are ordered as in a dictionary: one that begins the other comes first, otherwise
      the first difference decides. */
  lemma {:induction false} LeqIsDictionary(a: string, b: string)
    ensures Leq(a, b) <==> a <= b || exists i: nat :: LowerAt(a, b, i)
  {
    if a != "" && b != "" {
      LeqIsDictionary(a[1..], b[1..]);
      if a[0] == b[0] {
        assert a <= b <==> a[1..] <= b[1..] by {
          assert a == [a[0]] + a[1..] && b == [b[0]] + b[1..];
        }
        if i: nat :| LowerAt(a[1..], b[1..], i) { LaterLower(a, b, i); }
        if i: nat :| LowerAt(a, b, i) { EarlierLower(a, b, i); }
      } else if a[0] < b[0] {
        assert LowerAt(a, b, 0);
      } else {
        forall i: nat ensures !LowerAt(a, b, i) { FirstIsLower(a, b, i); }
      }
    }
  }

  lemma FirstIsLower(a: string, b: string, i: nat)
    requires a != "" && b != ""
    ensures LowerAt(a, b, i) ==> a[0] <= b[0]
  {
    if 0 < i <= |a| && i <= |b| {
      assert a[..i][0] == a[0];
      assert b[..i][0] == b[0];
    }
  }

  lemma LaterLower(a: string, b: string, i: nat)
    requires a != "" && b != "" && a[0] == b[0] && LowerAt(a[1..], b[1..], i)
    ensures LowerAt(a, b, i + 1)
  {
    assert a[..i + 1] == [a[0]] + a[1..][..i] && b[..i + 1] == [b[0]] + b[1..][..i];
  }

  lemma EarlierLower(a: string, b: string, i: nat)
    requires a != "" && b != "" && a[0] == b[0] && LowerAt(a, b, i)
    ensures i > 0 && LowerAt(a[1..], b[1..], i - 1)
  {
    assert a[1..][..i - 1] == a[..i][1..] && b[1..][..i - 1] == b[..i][1..];
  }

  // ----- the text of a value -----

  /** Lists and objects are written without white space, an object's fields in order. */
  lemma TextOfAList(v: Value, w: Value)
    ensures Print(List([])) == "[]" && Print(List([v])) == "[" + Print(v) + "]"
    ensures Print(List([v, w])) == "[" + Print(v) + "," + Print(w) + "]"
  {
    hide Quote, Digits, Print;
    var l, p := List([v]), List([v, w]);
    assert PrintItems(l, 0) == Print(v);
    assert PrintItems(p, 1) == Print(w);
    assert PrintItems(p, 0) == Print(v) + ("," + Print(w));
    PrintOfList(List([]));
    PrintOfList(l);
    PrintOfList(p);
  }

  lemma PrintOfList(v: Value)
    requires v.List?
    ensures Print(v) == "[" + PrintItems(v, 0) + "]"
  {
  }

  lemma TextOfAnObject(k: string, v: Value, l: string, w: Value)
    requires Leq(k, l) && k != l
    ensures Print(Obj(map[k := v, l := w])) == "{" + Quote(k) + ":" + Print(v) + "," + Quote(l) + ":" + Print(w) + "}"
  {
    hide Quote, Digits, Print, Leq;
    var m := map[k := v, l := w];
    var o := Obj(m);
    SortedPair(k, l);
    assert m.Keys == {k, l};
    assert PrintFields(o, m, [l]) == Quote(l) + ":" + Print(w);
    assert [k, l][1..] == [l];
    assert PrintFields(o, m, [k, l]) == Quote(k) + ":" + Print(v) + ("," + (Quote(l) + ":" + Print(w)));
    PrintOfObject(m);
  }

  lemma PrintOfObject(m: map<string, Value>)
    ensures Print(Obj(m)) == "{" + PrintFields(Obj(m), m, SortedKeys(m.Keys)) + "}"
  {
  }

  lemma SortedPair(k: string, l: string)
    requires Leq(k, l) && k != l
    ensures SortedKeys({k, l}) == [k, l]
  {
    hide Leq;
    LeqTotal(k, l);
    LeqTotal(k, k);
    var s := {k, l};
    assert Least(s) == k;
    assert s - {k} == {l};
    assert SortedKeys(s) == [k] + SortedKeys({l});
    assert Least({l}) == l;
    assert {l} - {l} == {};
    assert SortedKeys({l}) == [l] + SortedKeys({});
  }

  /** Quotes, backslashes and control characters are escaped, the usual ones by a letter;
      every other character is written as it is. */
  lemma EscapesAre(c: char)
    ensures Escape('"') == "\\\"" && Escape('\\') == "\\\\" && Escape('\n') == "\\n" && Escape('\r') == "\\r" && Escape('\t') == "\\t"
    ensures Escape(8 as char) == "\\b" && Escape(12 as char) == "\\f"
    ensures Escape(0 as char) == "\\u0000" && Escape(31 as char) == "\\u001f"
    ensures c >= ' ' && c != '"' && c != '\\' ==> Escape(c) == [c]
  {
  }

  // ----- the value of a field -----

  /** The value states the field: text, yes or no and null as they stand, a number as text
      that reads back as the number rounded, lists and objects part by part. */
  ghost predicate States(v: Raw, w: Value)
    decreases v
  {
    match v
    case RNull => w == Null
    case RBool(b) => w == Bool(b)
    case RNumber(d) => w.Str? && SameValue(Parse(w.s), Rounded(d)) && NormalForm(w.s)
    case RText(s) => w == Str(s)
    case RList(items) => w.List? && |w.items| == |items| && forall k :: 0 <= k < |items| ==> States(items[k], w.items[k])
    case RDict(m) => w.Obj? && w.fields.Keys == m.Keys && forall k :: k in m ==> States(m[k], w.fields[k])
  }

  lemma {:induction false} NormaliseStates(v: Raw)
    ensures States(v, Normalise(v))
    decreases v
  {
    hide NumStr, NormalForm, Parse, Rounded;
    match v
    case RNumber(d) =>
      NumStrParses(d);
      NumStrIsNormal(d);
    case RList(items) =>
      forall k | 0 <= k < |items| ensures States(items[k], Normalise(items[k])) { NormaliseStates(items[k]); }
    case RDict(m) =>
      forall k | k in m ensures States(m[k], Normalise(m[k])) { NormaliseStates(m[k]); }
    case _ =>
  }

  // ----- cashflows -----

  /** A cashflow row states its type, dates and currency as booked, and its amount and sides. */
  lemma CashflowStates(r: Cashflow, own: string, cp: string)
    ensures CashflowV2(r, own, cp).Obj? &&
      var row := CashflowV2(r, own, cp).fields;
      && row.Keys == {"type", "payment_date", "accrual_start", "accrual_end", "currency", "amount", "payer", "receiver"}
      && forall n :: n in {"type", "payment_date", "accrual_start", "accrual_end", "currency"} ==> States(Get(r.fields, n), row[n])
  {
    hide NumStr, Normalise, States;
    forall n | n in {"type", "payment_date", "accrual_start", "accrual_end", "currency"} ensures States(Get(r.fields, n), Normalise(Get(r.fields, n))) {
      NormaliseStates(Get(r.fields, n));
    }
  }

  /** Cashflows stand in the order of their dates; those of a date in the order of their
      types, then of their payers and of their amounts. */
  lemma CashflowsStandInOrder(rs: seq<Cashflow>, own: string, cp: string, i: nat, j: nat)
    requires i < j < |CashflowsV2(rs, own, cp)|
    ensures var x, y := CashflowsV2(rs, own, cp)[i], CashflowsV2(rs, own, cp)[j];
      if Text(x, "payment_date") != Text(y, "payment_date") then Leq(Text(x, "payment_date"), Text(y, "payment_date"))
      else if Text(x, "type") != Text(y, "type") then Leq(Text(x, "type"), Text(y, "type"))
      else if Text(x, "payer") != Text(y, "payer") then Leq(Text(x, "payer"), Text(y, "payer"))
      else Leq(Text(x, "amount"), Text(y, "amount"))
  {
    hide CashflowV2, Text, Sorted, Leq;
    SortedAscends(CashflowKey, CashflowRows(rs, own, cp));
    var x, y := CashflowsV2(rs, own, cp)[i], CashflowsV2(rs, own, cp)[j];
    var a, b := CashflowKey(x), CashflowKey(y);
    assert a[1..] == [Text(x, "type"), Text(x, "payer"), Text(x, "amount")];
    assert b[1..] == [Text(y, "type"), Text(y, "payer"), Text(y, "amount")];
    FirstDifferenceDecides(a, b);
  }

  /** Of two keys of four parts the first that differs decides. */
  lemma FirstDifferenceDecides(a: Key, b: Key)
    requires |a| == |b| == 4 && KeyLeq(a, b)
    ensures if a[0] != b[0] then Leq(a[0], b[0]) else if a[1] != b[1] then Leq(a[1], b[1])
      else if a[2] != b[2] then Leq(a[2], b[2]) else Leq(a[3], b[3])
  {
    hide Leq;
    LeqTotal(a[3], a[3]);
    if a[0] == b[0] {
      assert KeyLeq(a[1..], b[1..]);
      if a[1] == b[1] {
        assert a[1..][1..] == a[2..] && b[1..][1..] == b[2..];
        assert KeyLeq(a[2..], b[2..]);
        if a[2] == b[2] {
          assert a[2..][1..] == a[3..] && b[2..][1..] == b[3..];
          assert KeyLeq(a[3..], b[3..]);
        }
      }
    }
  }

  // ----- parties -----

  /** The parties are the two of the trade, in order, whoever books. */
  lemma PartiesStandInOrder(t: Trade, legs: seq<Leg>, own: string, cp: string)
    requires CanonicalV2(t, legs, own, cp).Ok?
    ensures CanonicalV2(t, legs, own, cp).value.Obj? && "parties" in CanonicalV2(t, legs, own, cp).value.fields
    ensures exists a, b ::
      (CanonicalV2(t, legs, own, cp).value.fields["parties"] == List([Str(a), Str(b)])
        && multiset{a, b} == multiset{own, cp} && Leq(a, b) && a != b)
  {
    hide Substance, Normalise, InstrumentOf;
    LeqTotal(own, cp);
    var a, b := if Leq(own, cp) then own else cp, if Leq(own, cp) then cp else own;
    assert Parties(own, cp) == List([Str(a), Str(b)]);
    assert CanonicalV2(t, legs, own, cp).value.fields["parties"] == Parties(own, cp);
    assert multiset{a, b} == multiset{own, cp};
  }

  // ----- the fields of trades and legs -----

  /** The record states the trade's identifier and terms as booked. */
  lemma TradeStates(t: Trade, legs: seq<Leg>, own: string, cp: string)
    requires CanonicalV2(t, legs, own, cp).Ok?
    ensures CanonicalV2(t, legs, own, cp).value.Obj? &&
      var record := CanonicalV2(t, legs, own, cp).value.fields;
      && "uti" in record && States(t.uti, record["uti"]) && "trade" in record && record["trade"].Obj?
      && forall n :: n in record["trade"].fields ==> States(Get(t.fields, n), record["trade"].fields[n])
  {
    hide Substance, Parties, Normalise, InstrumentOf, States, TRADE_FIELDS;
    NormaliseStates(t.uti);
    forall n | n in TRADE_FIELDS ensures States(Get(t.fields, n), Normalise(Get(t.fields, n))) {
      NormaliseStates(Get(t.fields, n));
    }
  }

  lemma TermNamesNoSide(n: string)
    requires n in LEG_TERMS
    ensures n !in {"payer", "receiver", "index", "embedded_options", "custom_cashflows"}
  {
  }

  /** A leg states its terms and its index as booked, its sides, options and cashflows, and
      nothing else. */
  lemma LegStates(l: Leg, own: string, cp: string)
    requires LegV2(l, own, cp).Ok?
    ensures LegV2(l, own, cp).value.Obj? &&
      var leg := LegV2(l, own, cp).value.fields;
      && (forall n :: n in leg <==> n in LEG_TERMS || n in {"payer", "receiver", "index", "embedded_options", "custom_cashflows"})
      && (forall n :: n in LEG_TERMS ==> States(Get(l.fields, n), leg[n]))
      && States(Get(l.fields, "forecast_curve_id"), leg["index"])
      && leg["custom_cashflows"] == List(CashflowsV2(l.cashflows, own, cp))
  {
    hide OptionsV2, CashflowsV2, Normalise, States, LEG_FIELDS, LEG_TERMS, SidesOf;
    NormaliseStates(Get(l.fields, "forecast_curve_id"));
    forall n ensures n in LEG_TERMS <==> n in LEG_FIELDS { LegTermsArePicked(n); }
    forall n | n in LEG_TERMS
      ensures States(Get(l.fields, n), Normalise(Get(l.fields, n))) && n !in {"payer", "receiver", "index", "embedded_options", "custom_cashflows"} {
      NormaliseStates(Get(l.fields, n));
      TermNamesNoSide(n);
    }
  }

  /** An option states every field as booked but its direction, and its sides instead. */
  lemma OptionStates(o: Fields, own: string, cp: string)
    requires OptionV2(o, own, cp).Ok?
    ensures OptionV2(o, own, cp).value.Obj? &&
      var option := OptionV2(o, own, cp).value.fields;
      && option.Keys == o.Keys - {"direction"} + {"buyer", "seller"}
      && forall n :: n in o && n !in {"direction", "buyer", "seller"} ==> States(o[n], option[n])
  {
    hide Normalise, States, SidesOf;
    forall n | n in o ensures States(o[n], Normalise(o[n])) { NormaliseStates(o[n]); }
    assert "direction" != "buyer" && "direction" != "seller";
  }
}
