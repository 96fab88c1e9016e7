/** The printer that turns a record into canonical text, and a reader for it: object keys
    in code-point order, no white space, strings escaped as RFC 8259 section 7 requires. */
module Json {
  import opened Decimals
  import opened Options

  /** A normalised value. Numbers other than the schema version are already strings. */
  datatype Value = Null | Bool(b: bool) | Num(n: nat) | Str(s: string)
    | List(items: seq<Value>) | Obj(fields: map<string, Value>)

  // ----- key order -----

  predicate Leq(a: string, b: string) {
    a == "" || (b != "" && (a[0] < b[0] || (a[0] == b[0] && Leq(a[1..], b[1..]))))
  }

  lemma {:induction false} LeqTotal(a: string, b: string)
    ensures Leq(a, b) || Leq(b, a)
    ensures Leq(a, b) && Leq(b, a) ==> a == b
  {
    if a != "" && b != "" && a[0] == b[0] {
      LeqTotal(a[1..], b[1..]);
      assert a == [a[0]] + a[1..] && b == [b[0]] + b[1..];
    }
  }

  lemma {:induction false} LeqTransitive(a: string, b: string, c: string)
    requires Leq(a, b) && Leq(b, c)
    ensures Leq(a, c)
  {
    if a != "" && a[0] == b[0] == c[0] { LeqTransitive(a[1..], b[1..], c[1..]); }
  }

  predicate Ordered(keys: seq<string>) {
    forall i, j :: 0 <= i < j < |keys| ==> keys[i] != keys[j] && Leq(keys[i], keys[j])
  }

  predicate IsLeast(k: string, s: set<string>) {
    k in s && forall x :: x in s ==> Leq(k, x)
  }

  lemma {:induction false} LeastExists(s: set<string>)
    requires s != {}
    ensures exists k :: IsLeast(k, s)
    decreases |s|
  {
    var x :| x in s;
    LeqTotal(x, x);
    var rest := s - {x};
    if rest == {} {
      assert s == {x};
      assert IsLeast(x, s);
    } else {
      LeastExists(rest);
      var k :| IsLeast(k, rest);
      LeqTotal(x, k);
      var m := if Leq(x, k) then x else k;
      forall y | y in s ensures Leq(m, y) {
        if m == x && y in rest { LeqTransitive(x, k, y); }
      }
      assert IsLeast(m, s);
    }
  }

  function Least(s: set<string>): (k: string)
    requires s != {}
    ensures IsLeast(k, s)
  {
    LeastExists(s);
    assert forall a, b :: IsLeast(a, s) && IsLeast(b, s) ==> a == b by {
      forall a, b | IsLeast(a, s) && IsLeast(b, s) ensures a == b { LeqTotal(a, b); }
    }
    var k :| k in s && IsLeast(k, s);
    k
  }

  /** The members of `s` in code-point order. */
  function SortedKeys(s: set<string>): (keys: seq<string>)
    ensures Ordered(keys) && forall k :: k in keys <==> k in s
    decreases |s|
  {
    if s == {} then [] else
      var k, rest := Least(s), SortedKeys(s - {Least(s)});
      assert forall i :: 0 <= i < |rest| ==> rest[i] in rest && rest[i] in s - {k};
      [k] + rest
  }

  // ----- printing -----

  const HEX := "0123456789abcdef"

  function Escape(c: char): (e: string)
    ensures e != ""
  {
    if c == '"' then "\\\""
    else if c == '\\' then "\\\\"
    else if c == '\n' then "\\n"
    else if c == '\r' then "\\r"
    else if c == '\t' then "\\t"
    else if c == 8 as char then "\\b"
    else if c == 12 as char then "\\f"
    else if c < ' ' then "\\u00" + [HEX[c as int / 16], HEX[c as int % 16]]
    else [c]
  }

  function EscapeAll(s: string): string {
    if s == "" then "" else Escape(s[0]) + EscapeAll(s[1..])
  }

  function Quote(s: string): string {
    "\"" + EscapeAll(s) + "\""
  }

  function Print(v: Value): string
    decreases v, 1, 0
  {
    match v
    case Null => "null"
    case Bool(b) => if b then "true" else "false"
    case Num(n) => Digits(n)
    case Str(s) => Quote(s)
    case List(_) => "[" + PrintItems(v, 0) + "]"
    case Obj(m) => "{" + PrintFields(v, m, SortedKeys(m.Keys)) + "}"
  }

  /** The items from index `i` on. */
  function PrintItems(v: Value, i: nat): string
    requires v.List? && i <= |v.items|
    decreases v, 0, |v.items| - i
  {
    if i == |v.items| then ""
    else Print(v.items[i]) + (if i + 1 == |v.items| then "" else "," + PrintItems(v, i + 1))
  }

  function PrintFields(v: Value, m: map<string, Value>, keys: seq<string>): string
    requires v == Obj(m) && forall k :: k in keys ==> k in m
    decreases v, 0, |keys|
  {
    if keys == [] then ""
    else
      Quote(keys[0]) + ":" + Print(m[keys[0]])
      + (if |keys| == 1 then "" else "," + PrintFields(v, m, keys[1..]))
  }

  // ----- reading -----

  function HexDigit(c: char): nat {
    if '0' <= c <= '9' then (c - '0') as nat else if 'a' <= c <= 'f' then 10 + (c - 'a') as nat else 0
  }

  /** One character, escaped or not, and what follows it. */
  function ReadChar(s: string): (r: Option<(char, string)>)
    ensures r.Some? ==> |r.value.1| < |s|
  {
    if s == "" || s[0] == '"' then None
    else if s[0] != '\\' then Some((s[0], s[1..]))
    else if |s| < 2 then None
    else if s[1] == 'n' then Some(('\n', s[2..]))
    else if s[1] == 'r' then Some(('\r', s[2..]))
    else if s[1] == 't' then Some(('\t', s[2..]))
    else if s[1] == 'b' then Some((8 as char, s[2..]))
    else if s[1] == 'f' then Some((12 as char, s[2..]))
    else if s[1] == 'u' then
      if |s| < 6 || s[2..4] != "00" then None
      else Some(((16 * HexDigit(s[4]) + HexDigit(s[5])) as char, s[6..]))
    else Some((s[1], s[2..]))
  }

  /** The characters up to the closing quote, and what follows it. */
  function ReadChars(s: string): (r: Option<(string, string)>)
    ensures r.Some? ==> |r.value.1| < |s|
    decreases |s|
  {
    if s != "" && s[0] == '"' then Some(("", s[1..]))
    else
      match ReadChar(s)
      case None => None
      case Some((c, rest)) =>
        match ReadChars(rest)
        case None => None
        case Some((cs, after)) => Some(([c] + cs, after))
  }

  function CountDigits(s: string): (n: nat)
    ensures n <= |s|
  {
    if s != "" && '0' <= s[0] <= '9' then 1 + CountDigits(s[1..]) else 0
  }

  predicate Next(s: string, c: char) {
    s != "" && s[0] == c
  }

  function ReadToken(s: string, token: string, v: Value): (r: Option<(Value, string)>)
    requires token != ""
    ensures r.Some? ==> |r.value.1| < |s|
  {
    if token <= s then Some((v, s[|token|..])) else None
  }

  function ReadValue(s: string): (r: Option<(Value, string)>)
    ensures r.Some? ==> |r.value.1| < |s|
    decreases |s|, 2
  {
    if s == "" then None
    else if s[0] == 'n' then ReadToken(s, "null", Null)
    else if s[0] == 't' then ReadToken(s, "true", Bool(true))
    else if s[0] == 'f' then ReadToken(s, "false", Bool(false))
    else if s[0] == '"' then
      match ReadChars(s[1..])
      case None => None
      case Some((cs, rest)) => Some((Str(cs), rest))
    else if s[0] == '[' then
      if Next(s[1..], ']') then Some((List([]), s[2..]))
      else
        match ReadItems(s[1..])
        case None => None
        case Some((items, rest)) => Some((List(items), rest))
    else if s[0] == '{' then
      if Next(s[1..], '}') then Some((Obj(map[]), s[2..]))
      else
        match ReadFields(s[1..])
        case None => None
        case Some((m, rest)) => Some((Obj(m), rest))
    else
      var n := CountDigits(s);
      if n == 0 then None else Some((Num(ParseNat(s[..n])), s[n..]))
  }

  /** At least one value, then the closing bracket. */
  function ReadItems(s: string): (r: Option<(seq<Value>, string)>)
    ensures r.Some? ==> |r.value.1| < |s|
    decreases |s|, 3
  {
    match ReadValue(s)
    case None => None
    case Some((v, rest)) =>
      if Next(rest, ']') then Some(([v], rest[1..]))
      else if !Next(rest, ',') then None
      else
        match ReadItems(rest[1..])
        case None => None
        case Some((items, after)) => Some(([v] + items, after))
  }

  /** A quoted key, a colon and a value. */
  function ReadField(s: string): (r: Option<(string, Value, string)>)
    ensures r.Some? ==> |r.value.2| < |s|
    decreases |s|, 3
  {
    if !Next(s, '"') then None
    else
      match ReadChars(s[1..])
      case None => None
      case Some((k, colon)) =>
        if !Next(colon, ':') then None
        else
          match ReadValue(colon[1..])
          case None => None
          case Some((v, rest)) => Some((k, v, rest))
  }

  /** At least one field, then the closing brace; a repeated key keeps its last value. */
  function ReadFields(s: string): (r: Option<(map<string, Value>, string)>)
    ensures r.Some? ==> |r.value.1| < |s|
    decreases |s|, 4
  {
    match ReadField(s)
    case None => None
    case Some((k, v, rest)) =>
      if Next(rest, '}') then Some((map[k := v], rest[1..]))
      else if !Next(rest, ',') then None
      else
        match ReadFields(rest[1..])
        case None => None
        case Some((m, after)) => Some((map[k := v] + m, after))
  }

  // ----- round trip -----

  lemma ReadEscaped(c: char, rest: string)
    ensures ReadChar(Escape(c) + rest) == Some((c, rest))
  {
    var s := Escape(c) + rest;
    assert s[|Escape(c)|..] == rest;
    if Escape(c)[0] == '\\' && Escape(c)[1] == 'u' {
      var n := c as int;
      assert s[2..4] == "00";
      assert HexDigit(HEX[n / 16]) == n / 16 && HexDigit(HEX[n % 16]) == n % 16;
    }
  }

  lemma {:induction false} ReadQuoted(s: string, rest: string)
    ensures ReadChars(EscapeAll(s) + "\"" + rest) == Some((s, rest))
  {
    var t := EscapeAll(s) + "\"" + rest;
    if s == "" {
      assert t[1..] == rest;
    } else {
      var tail := EscapeAll(s[1..]) + "\"" + rest;
      assert t == Escape(s[0]) + tail;
      ReadEscaped(s[0], tail);
      ReadQuoted(s[1..], rest);
      assert s == [s[0]] + s[1..];
    }
  }

  lemma {:induction false} DigitsRead(d: string, rest: string)
    requires forall i :: 0 <= i < |d| ==> '0' <= d[i] <= '9'
    requires rest == "" || !('0' <= rest[0] <= '9')
    ensures CountDigits(d + rest) == |d|
  {
    var s := d + rest;
    if d == "" {
      assert s == rest;
    } else {
      assert s[1..] == d[1..] + rest;
      DigitsRead(d[1..], rest);
    }
  }

  /** What may follow a value without changing how it is read. */
  predicate Ends(v: Value, rest: string) {
    v.Num? ==> rest == "" || !('0' <= rest[0] <= '9')
  }

  /** Reading what was printed gives the value back and leaves what follows. */
  lemma {:induction false} ReadPrinted(v: Value, rest: string)
    requires Ends(v, rest)
    ensures ReadValue(Print(v) + rest) == Some((v, rest))
    decreases v, 2, 0
  {
    hide ReadValue, Print;
    match v
    case List(_) => ReadPrintedList(v, rest);
    case Obj(_) => ReadPrintedObject(v, rest);
    case _ => ReadPrintedScalar(v, rest);
  }

  lemma ReadPrintedScalar(v: Value, rest: string)
    requires Ends(v, rest) && !v.List? && !v.Obj?
    ensures ReadValue(Print(v) + rest) == Some((v, rest))
  {
    hide ReadItems, ReadFields, ReadChars, CountDigits, Digits, Quote;
    match v
    case Null => Token("null", Null, rest);
    case Bool(b) => Token(if b then "true" else "false", v, rest);
    case Num(n) => ReadNumber(n, rest);
    case Str(x) => ReadText(x, rest);
  }

  lemma ReadText(x: string, rest: string)
    ensures ReadValue(Quote(x) + rest) == Some((Str(x), rest))
  {
    hide ReadItems, ReadFields, ReadChars, CountDigits, ReadToken;
    var body := EscapeAll(x) + "\"" + rest;
    ReadQuoted(x, rest);
    hide EscapeAll;
    assert Quote(x) + rest == "\"" + body;
    assert ("\"" + body)[1..] == body;
  }

  lemma ReadNumber(n: nat, rest: string)
    requires Ends(Num(n), rest)
    ensures ReadValue(Digits(n) + rest) == Some((Num(n), rest))
  {
    var d := Digits(n);
    DigitsRead(d, rest);
    ParseDigits(n);
    hide Digits, CountDigits, ReadToken, ReadChars, ReadItems, ReadFields, ParseNat;
    assert (d + rest)[..|d|] == d && (d + rest)[|d|..] == rest;
    assert (d + rest)[0] == d[0];
  }

  lemma {:induction false} ReadPrintedList(v: Value, rest: string)
    requires v.List?
    ensures ReadValue(Print(v) + rest) == Some((v, rest))
    decreases v, 1, 0
  {
    hide ReadItems, ReadValue;
    var body := PrintItems(v, 0) + "]" + rest;
    assert Print(v) + rest == "[" + body;
    if v.items == [] {
      assert body == "]" + rest;
    } else {
      PrintStartsValue(v.items[0]);
      assert body[0] == Print(v.items[0])[0];
      hide PrintItems, Print;
      ReadPrintedItems(v, 0, rest);
    }
    ReadList(body, v.items, rest);
  }

  lemma ReadList(body: string, items: seq<Value>, rest: string)
    requires body != "" && (if items == [] then body == "]" + rest else body[0] != ']' && ReadItems(body) == Some((items, rest)))
    ensures ReadValue("[" + body) == Some((List(items), rest))
  {
    hide ReadItems, ReadFields;
    assert ("[" + body)[1..] == body && ("[" + body)[2..] == body[1..];
    if items == [] { assert body[1..] == rest; }
  }

  lemma {:induction false} ReadPrintedObject(v: Value, rest: string)
    requires v.Obj?
    ensures ReadValue(Print(v) + rest) == Some((v, rest))
    decreases v, 1, 0
  {
    hide ReadItems, ReadFields, ReadValue;
    var m, keys := v.fields, SortedKeys(v.fields.Keys);
    var body := PrintFields(v, m, keys) + "}" + rest;
    assert Print(v) + rest == "{" + body;
    ChosenAll(m, keys);
    if keys == [] {
      assert body == "}" + rest;
    } else {
      hide PrintFields, Print;
      ReadPrintedFields(v, m, keys, rest);
    }
    ReadObject(body, m, keys == [], rest);
  }

  lemma ReadObject(body: string, m: map<string, Value>, empty: bool, rest: string)
    requires body != "" && (empty <==> m == map[])
    requires if empty then body == "}" + rest else body[0] != '}' && ReadFields(body) == Some((m, rest))
    ensures ReadValue("{" + body) == Some((Obj(m), rest))
  {
    hide ReadItems, ReadFields;
    assert ("{" + body)[1..] == body && ("{" + body)[2..] == body[1..];
    if empty { assert body[1..] == rest; }
  }

  lemma ChosenAll(m: map<string, Value>, keys: seq<string>)
    requires forall k :: k in keys <==> k in m
    ensures Chosen(m, keys) == m && (keys == [] <==> m == map[])
  {
    if keys == [] {
      assert forall k :: k !in m;
    } else {
      assert keys[0] in m;
    }
  }

  lemma Token(token: string, v: Value, rest: string)
    requires token != ""
    ensures ReadToken(token + rest, token, v) == Some((v, rest))
  {
  }

  lemma PrintStartsValue(v: Value)
    ensures Print(v) != "" && Print(v)[0] != ']' && Print(v)[0] != '}'
  {
  }

  lemma {:induction false} ReadPrintedItems(v: Value, i: nat, rest: string)
    requires v.List? && i < |v.items|
    ensures ReadItems(PrintItems(v, i) + "]" + rest) == Some((v.items[i..], rest))
    decreases v, 0, |v.items| - i
  {
    hide Print;
    var s, w := PrintItems(v, i) + "]" + rest, v.items[i];
    if i + 1 == |v.items| {
      var tail := "]" + rest;
      assert s == Print(w) + tail;
      ReadPrinted(w, tail);
      assert v.items[i..] == [w];
      assert tail[1..] == rest;
    } else {
      var more := PrintItems(v, i + 1) + "]" + rest;
      var tail := "," + more;
      assert s == Print(w) + tail;
      ReadPrinted(w, tail);
      assert tail[1..] == more;
      hide ReadValue;
      ReadPrintedItems(v, i + 1, rest);
      assert v.items[i..] == [w] + v.items[i + 1..];
    }
  }

  function Chosen(m: map<string, Value>, keys: seq<string>): map<string, Value> {
    map k | k in m && k in keys :: m[k]
  }

  lemma {:induction false} ReadPrintedField(v: Value, m: map<string, Value>, k: string, tail: string)
    requires v == Obj(m) && k in m && tail != "" && !('0' <= tail[0] <= '9')
    ensures ReadField(Quote(k) + ":" + Print(m[k]) + tail) == Some((k, m[k], tail))
    decreases v, 0, 0
  {
    hide Print, ReadChars, EscapeAll;
    var s, colon := Quote(k) + ":" + Print(m[k]) + tail, ":" + Print(m[k]) + tail;
    assert s == "\"" + (EscapeAll(k) + "\"" + colon);
    assert s[1..] == EscapeAll(k) + "\"" + colon;
    ReadQuoted(k, colon);
    assert colon[1..] == Print(m[k]) + tail;
    ReadPrinted(m[k], tail);
    hide ReadValue;
  }

  lemma {:induction false} ReadPrintedFields(v: Value, m: map<string, Value>, keys: seq<string>, rest: string)
    requires v == Obj(m) && keys != [] && Ordered(keys) && forall k :: k in keys ==> k in m
    ensures ReadFields(PrintFields(v, m, keys) + "}" + rest) == Some((Chosen(m, keys), rest))
    ensures Next(PrintFields(v, m, keys), '"')
    decreases v, 0, |keys|
  {
    hide Print, ReadField, EscapeAll, ReadFields, Quote;
    var k := keys[0];
    if |keys| == 1 {
      var tail := "}" + rest;
      assert PrintFields(v, m, keys) + "}" + rest == Quote(k) + ":" + Print(m[k]) + tail;
      ReadPrintedField(v, m, k, tail);
      LastField(Quote(k) + ":" + Print(m[k]) + tail, k, m[k], rest);
      assert Chosen(m, keys) == map[k := m[k]];
    } else {
      var more := PrintFields(v, m, keys[1..]) + "}" + rest;
      var tail := "," + more;
      assert PrintFields(v, m, keys) + "}" + rest == Quote(k) + ":" + Print(m[k]) + tail;
      ReadPrintedField(v, m, k, tail);
      ReadPrintedFields(v, m, keys[1..], rest);
      FieldBefore(Quote(k) + ":" + Print(m[k]) + tail, k, m[k], more, Chosen(m, keys[1..]), rest);
      assert k !in keys[1..];
      assert Chosen(m, keys) == map[k := m[k]] + Chosen(m, keys[1..]);
    }
    FieldsOpen(v, m, keys);
  }

  lemma FieldsOpen(v: Value, m: map<string, Value>, keys: seq<string>)
    requires v == Obj(m) && keys != [] && forall k :: k in keys ==> k in m
    ensures Next(PrintFields(v, m, keys), '"')
  {
  }

  lemma LastField(s: string, k: string, x: Value, rest: string)
    requires ReadField(s) == Some((k, x, "}" + rest))
    ensures ReadFields(s) == Some((map[k := x], rest))
  {
  }

  lemma FieldBefore(s: string, k: string, x: Value, more: string, m: map<string, Value>, rest: string)
    requires ReadField(s) == Some((k, x, "," + more)) && ReadFields(more) == Some((m, rest))
    ensures ReadFields(s) == Some((map[k := x] + m, rest))
  {
  }

  /** Different values print differently. */
  lemma PrintInjective(v: Value, w: Value)
    requires Print(v) == Print(w)
    ensures v == w
  {
    ReadPrinted(v, "");
    ReadPrinted(w, "");
    assert Print(v) + "" == Print(w) + "";
  }

  /** No printed value starts another: records laid end to end can be told apart. */
  lemma NoneIsPrefix(v: Value, w: Value)
    requires !v.Num? && Print(v) <= Print(w)
    ensures v == w
  {
    var rest := Print(w)[|Print(v)|..];
    assert Print(w) == Print(v) + rest && Print(w) + "" == Print(w);
    ReadPrinted(v, rest);
    ReadPrinted(w, "");
  }
}
