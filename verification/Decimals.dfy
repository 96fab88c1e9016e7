/** The decimal normal form: how a number of the record is written as a string. */
module Decimals {

  /** `coefficient * 10^exponent`, negated when `negative`. */
  datatype Decimal = Decimal(negative: bool, coefficient: nat, exponent: int)

  function Pow10(n: nat): (p: nat)
    ensures p >= 1
  {
    if n == 0 then 1 else 10 * Pow10(n - 1)
  }

  // ----- equal values -----

  function Signed(negative: bool, n: nat): int {
    if negative then 0 - n else n
  }

  /** The value of `d` as a multiple of `10^m`. */
  function Lift(d: Decimal, m: int): int
    requires m <= d.exponent
  {
    Signed(d.negative, d.coefficient * Pow10(d.exponent - m))
  }

  function Lower(a: Decimal, b: Decimal): int {
    if a.exponent <= b.exponent then a.exponent else b.exponent
  }

  ghost predicate SameValue(a: Decimal, b: Decimal) {
    Lift(a, Lower(a, b)) == Lift(b, Lower(a, b))
  }

  lemma {:induction false} PowersAdd(m: nat, n: nat)
    ensures Pow10(m + n) == Pow10(m) * Pow10(n)
  {
    if m > 0 {
      PowersAdd(m - 1, n);
      assert 10 * (Pow10(m - 1) * Pow10(n)) == (10 * Pow10(m - 1)) * Pow10(n);
    }
  }

  lemma SignedProduct(negative: bool, c: nat, p: nat, q: nat)
    ensures Signed(negative, c * (p * q)) == Signed(negative, c * p) * q
  {
  }

  lemma LiftFurther(d: Decimal, m: int, k: nat)
    requires m <= d.exponent
    ensures Lift(d, m - k) == Lift(d, m) * Pow10(k)
  {
    var e := d.exponent - m;
    PowersAdd(e, k);
    SignedProduct(d.negative, d.coefficient, Pow10(e), Pow10(k));
    assert d.exponent - (m - k) == e + k;
  }

  lemma Order(x: int, y: int, p: nat)
    requires p > 0 && x <= y
    ensures x * p <= y * p && (x < y ==> x * p + p <= y * p)
  {
    assert (y - x) * p == y * p - x * p;
    if x < y { assert (y - x - 1) * p >= 0; }
  }

  lemma Cancel(x: int, y: int, p: nat)
    requires p > 0 && x * p == y * p
    ensures x == y
  {
    if x < y { Order(x, y, p); }
    if y < x { Order(y, x, p); }
  }

  /** Values may be compared at any common scale. */
  lemma SameValueAt(a: Decimal, b: Decimal, m: int)
    requires m <= a.exponent && m <= b.exponent
    ensures SameValue(a, b) <==> Lift(a, m) == Lift(b, m)
  {
    hide Lift;
    var l := Lower(a, b);
    LiftFurther(a, l, l - m);
    LiftFurther(b, l, l - m);
    if Lift(a, m) == Lift(b, m) { Cancel(Lift(a, l), Lift(b, l), Pow10(l - m)); }
  }

  lemma SameValueTransitive(a: Decimal, b: Decimal, c: Decimal)
    requires SameValue(a, b) && SameValue(b, c)
    ensures SameValue(a, c)
  {
    hide Lift, SameValue;
    var m := if Lower(a, b) <= c.exponent then Lower(a, b) else c.exponent;
    SameValueAt(a, b, m);
    SameValueAt(b, c, m);
    SameValueAt(a, c, m);
  }

  lemma SameValueSymmetric(a: Decimal, b: Decimal)
    requires SameValue(a, b)
    ensures SameValue(b, a)
  {
  }

  // ----- stripping trailing zeros -----

  function Strip(d: Decimal): (r: Decimal)
    ensures Stripped(r)
    decreases d.coefficient
  {
    if d.coefficient == 0 then Decimal(false, 0, 0)
    else if d.coefficient % 10 == 0 then Strip(Decimal(d.negative, d.coefficient / 10, d.exponent + 1))
    else d
  }

  predicate Stripped(d: Decimal) {
    d == Decimal(false, 0, 0) || d.coefficient % 10 != 0
  }

  lemma {:induction false} StripKeepsValue(d: Decimal)
    ensures SameValue(d, Strip(d))
    decreases d.coefficient
  {
    if d.coefficient == 0 {
      var m := if d.exponent < 0 then d.exponent else 0;
      assert forall p: nat :: 0 * p == 0;
    } else if d.coefficient % 10 == 0 {
      var e := Decimal(d.negative, d.coefficient / 10, d.exponent + 1);
      StripKeepsValue(e);
      assert Pow10(1) == 10 * Pow10(0);
      assert SameValue(d, e);
      SameValueTransitive(d, e, Strip(d));
    }
  }

  /** A value has one stripped form. */
  lemma StrippedUnique(a: Decimal, b: Decimal)
    requires Stripped(a) && Stripped(b) && SameValue(a, b)
    ensures a == b
  {
    hide Pow10;
    if a.exponent == b.exponent {
      PowersAtZero(a.coefficient);
      PowersAtZero(b.coefficient);
      hide Lift;
    } else if a.exponent > b.exponent {
      hide Lift, SameValue;
      HigherIsMultiple(a, b);
    } else {
      SameValueTransitive(a, b, b);
      hide Lift, SameValue;
      HigherIsMultiple(b, a);
    }
  }

  lemma PowersAtZero(n: nat)
    ensures n * Pow10(0) == n
  {
  }

  lemma HigherIsMultiple(a: Decimal, b: Decimal)
    requires SameValue(a, b) && a.exponent > b.exponent
    ensures b.coefficient % 10 == 0 && (b.coefficient == 0 ==> a.coefficient == 0)
  {
    var k := a.exponent - b.exponent;
    PowersAtZero(b.coefficient);
    assert Pow10(k) == 10 * Pow10(k - 1);
    hide Pow10;
    TenTimes(a.coefficient, Pow10(k - 1));
  }

  lemma TenTimes(c: nat, p: nat)
    ensures c * (10 * p) == 10 * (c * p)
    ensures p > 0 && c > 0 ==> c * (10 * p) > 0
    ensures (c * (10 * p)) % 10 == 0
  {
  }

  // ----- rounding to the context's 28 digits -----

  const PRECISION: nat := 28

  predicate IsDigits(s: string) {
    s != "" && forall i :: 0 <= i < |s| ==> '0' <= s[i] <= '9'
  }

  function Digits(n: nat): (s: string)
    ensures IsDigits(s)
  {
    if n < 10 then [Digit(n)] else Digits(n / 10) + [Digit(n % 10)]
  }

  function Digit(n: nat): (c: char)
    requires n < 10
    ensures '0' <= c <= '9'
  {
    '0' + n as char
  }

  function HalfEven(n: nat, p: nat): nat
    requires p > 0
  {
    var q, r := n / p, n % p;
    if 2 * r < p || (2 * r == p && q % 2 == 0) then q else q + 1
  }

  function Rounded(d: Decimal): Decimal {
    var excess := |Digits(d.coefficient)| - PRECISION;
    if excess <= 0 then d
    else Decimal(d.negative, HalfEven(d.coefficient, Pow10(excess)), d.exponent + excess)
  }

  /** The digits needed: `n` has at most `k` of them exactly when it is below `10^k`. */
  lemma {:induction false} DigitCount(n: nat, k: nat)
    requires k > 0
    ensures |Digits(n)| <= k <==> n < Pow10(k)
    decreases k
  {
    if n < 10 {
      assert Pow10(k) >= 10;
    } else if k > 1 {
      DigitCount(n / 10, k - 1);
    } else {
      assert Pow10(1) == 10 * Pow10(0);
    }
  }

  /** Rounding keeps 28 digits and moves the coefficient by at most half a unit of the
      last digit kept, to the even neighbour when it is exactly half. */
  lemma RoundedIsNearest(d: Decimal, k: nat)
    requires k == |Digits(d.coefficient)| - 28 && k > 0
    ensures 2 * Rounded(d).coefficient * Pow10(k) <= 2 * d.coefficient + Pow10(k)
    ensures 2 * d.coefficient <= 2 * Rounded(d).coefficient * Pow10(k) + Pow10(k)
    ensures 2 * (d.coefficient % Pow10(k)) == Pow10(k) ==> Rounded(d).coefficient % 2 == 0
    ensures Pow10(27) <= Rounded(d).coefficient <= Pow10(28)
  {
    var c, p := d.coefficient, Pow10(k);
    DigitCount(c, PRECISION + k);
    DigitCount(c, PRECISION + k - 1);
    PowersAdd(PRECISION, k);
    PowersAdd(PRECISION - 1, k);
    hide Digits, Pow10;
    Nearest(c, p);
    Between(c, p, Pow10(PRECISION - 1), Pow10(PRECISION));
  }

  lemma Nearest(c: nat, p: nat)
    requires p > 0
    ensures c / p <= HalfEven(c, p) <= c / p + 1
    ensures 2 * HalfEven(c, p) * p <= 2 * c + p
    ensures 2 * c <= 2 * HalfEven(c, p) * p + p
    ensures 2 * (c % p) == p ==> HalfEven(c, p) % 2 == 0
    ensures HalfEven(c, p) * p == c <==> c % p == 0
  {
  }

  lemma Between(c: nat, p: nat, lo: nat, hi: nat)
    requires p > 0 && lo * p <= c < hi * p
    ensures lo <= c / p < hi
  {
    var q := c / p;
    assert c == q * p + c % p;
    if q < lo { Order(q, lo, p); }
    if q >= hi { Order(hi, q, p); }
  }

  /** No non-zero digit beyond the 28th. */
  predicate Fits(d: Decimal) {
    var excess := |Digits(d.coefficient)| - PRECISION;
    excess <= 0 || d.coefficient % Pow10(excess) == 0
  }

  /** Rounding keeps the value exactly when nothing but zeros lies beyond 28 digits. */
  lemma RoundingKeepsValueIff(d: Decimal)
    ensures SameValue(Rounded(d), d) <==> Fits(d)
  {
  }

  // ----- writing and reading -----

  function Zeros(n: nat): (s: string)
    ensures |s| == n && forall i :: 0 <= i < n ==> s[i] == '0'
  {
    seq(n, _ => '0')
  }

  /** Fixed notation, with no exponent. */
  function Fixed(d: Decimal): string {
    if d.negative then "-" + Unsigned(d) else Unsigned(d)
  }

  function Unsigned(d: Decimal): string {
    if d.exponent >= 0 then Digits(d.coefficient) + Zeros(d.exponent)
    else
      var padded := Padded(d.coefficient, -d.exponent);
      padded[..|padded| + d.exponent] + "." + padded[|padded| + d.exponent..]
  }

  /** At least one digit before the point and `k` after it. */
  function Padded(n: nat, k: nat): (s: string)
    ensures |s| > k && IsDigits(s)
  {
    var s := Digits(n);
    if |s| > k then s else Zeros(k + 1 - |s|) + s
  }

  function StripRight(s: string, c: char): string {
    if s != "" && s[|s| - 1] == c then StripRight(s[..|s| - 1], c) else s
  }

  function NumStr(d: Decimal): string {
    var n := Strip(Rounded(d));
    if n.coefficient == 0 then "0" else Trimmed(Fixed(n))
  }

  function Trimmed(s: string): string {
    if '.' in s then StripRight(StripRight(s, '0'), '.') else s
  }

  function ParseNat(s: string): nat {
    if s == "" then 0
    else 10 * ParseNat(s[..|s| - 1]) + (if '0' <= s[|s| - 1] <= '9' then (s[|s| - 1] - '0') as nat else 0)
  }

  /** The digits after the point. */
  function Fraction(s: string): (f: string)
    ensures |f| <= |s|
  {
    if s == "" then "" else if s[0] == '.' then s[1..] else Fraction(s[1..])
  }

  function ParseUnsigned(negative: bool, s: string): Decimal {
    var f := Fraction(s);
    if '.' in s && |f| < |s| then Decimal(negative, ParseNat(s[..|s| - |f| - 1] + f), 0 - |f|)
    else Decimal(negative, ParseNat(s), 0)
  }

  function Parse(s: string): Decimal {
    if s != "" && s[0] == '-' then ParseUnsigned(true, s[1..]) else ParseUnsigned(false, s)
  }

  lemma {:induction false} ParseDigits(n: nat)
    ensures ParseNat(Digits(n)) == n
  {
    if n < 10 {
      assert Digits(n)[..0] == "";
    } else {
      ParseDigits(n / 10);
      assert Digits(n)[..|Digits(n)| - 1] == Digits(n / 10);
    }
  }

  lemma {:induction false} ParseLeadingZeros(k: nat, s: string)
    ensures ParseNat(Zeros(k) + s) == ParseNat(s)
    decreases k + |s|
  {
    var t := Zeros(k) + s;
    if s != "" {
      assert t[..|t| - 1] == Zeros(k) + s[..|s| - 1];
      ParseLeadingZeros(k, s[..|s| - 1]);
    } else if k > 0 {
      assert t[..|t| - 1] == Zeros(k - 1) + "";
      ParseLeadingZeros(k - 1, "");
    }
  }

  lemma {:induction false} ParseTrailingZeros(s: string, k: nat)
    ensures ParseNat(s + Zeros(k)) == ParseNat(s) * Pow10(k)
  {
    var t := s + Zeros(k);
    if k == 0 {
      assert t == s;
    } else {
      assert t[..|t| - 1] == s + Zeros(k - 1);
      assert t[|t| - 1] == '0';
      ParseTrailingZeros(s, k - 1);
      TenTimes(ParseNat(s), Pow10(k - 1));
    }
  }

  lemma {:induction false} FractionAfter(whole: string, f: string)
    requires '.' !in whole
    ensures Fraction(whole + "." + f) == f && '.' in whole + "." + f
  {
    var s := whole + "." + f;
    assert s[|whole|] == '.';
    if whole == "" {
      assert s[1..] == f;
    } else {
      assert s[0] == whole[0];
      assert s[1..] == whole[1..] + "." + f;
      FractionAfter(whole[1..], f);
    }
  }

  lemma PaddedParses(n: nat, k: nat)
    ensures ParseNat(Padded(n, k)) == n && Padded(n, k)[|Padded(n, k)| - 1] == Digit(n % 10)
  {
    ParseDigits(n);
    ParseLeadingZeros(if |Digits(n)| > k then 0 else k + 1 - |Digits(n)|, Digits(n));
  }

  /** Where the point stands in a fixed notation, and what its digits are worth. */
  lemma PointSplits(n: Decimal, k: nat) returns (whole: string, f: string)
    requires n.exponent == 0 - k && k > 0
    ensures IsDigits(whole) && IsDigits(f) && |f| == k && Unsigned(n) == whole + "." + f
    ensures '.' in Unsigned(n) && Fraction(Unsigned(n)) == f && Unsigned(n)[..|Unsigned(n)| - |f| - 1] == whole
    ensures ParseNat(whole + f) == n.coefficient && f[k - 1] == Digit(n.coefficient % 10)
  {
    hide ParseNat, Digits, Fraction, Padded;
    var padded, s := Padded(n.coefficient, k), Unsigned(n);
    PaddedParses(n.coefficient, k);
    whole, f := padded[..|padded| - k], padded[|padded| - k..];
    assert padded == whole + f;
    assert forall i :: 0 <= i < |f| ==> f[i] == padded[|padded| - k + i];
    assert s == whole + "." + f;
    FractionAfter(whole, f);
    assert s[..|s| - |f| - 1] == whole;
  }

  lemma WholeParses(n: Decimal)
    requires n.exponent >= 0
    ensures IsDigits(Unsigned(n)) && ParseNat(Unsigned(n)) == n.coefficient * Pow10(n.exponent)
  {
    hide ParseNat;
    var d, z := Digits(n.coefficient), Zeros(n.exponent);
    ParseDigits(n.coefficient);
    ParseTrailingZeros(d, n.exponent);
    hide Digits;
    assert forall i :: 0 <= i < |d + z| ==> (d + z)[i] == if i < |d| then d[i] else z[i - |d|];
  }

  lemma UnsignedParses(d: Decimal)
    ensures SameValue(ParseUnsigned(d.negative, Unsigned(d)), d)
    ensures Unsigned(d) != "" && Unsigned(d)[0] != '-'
  {
    hide ParseNat, Digits, Unsigned;
    if d.exponent >= 0 {
      WholeParses(d);
      PowersAtZero(d.coefficient * Pow10(d.exponent));
    } else {
      var whole, f := PointSplits(d, 0 - d.exponent);
      assert ParseUnsigned(d.negative, Unsigned(d)) == d;
    }
  }

  /** Reading back what was written. */
  lemma FixedParses(d: Decimal)
    ensures SameValue(Parse(Fixed(d)), d)
  {
    hide ParseNat, Digits, Unsigned, SameValue, ParseUnsigned;
    UnsignedParses(d);
    assert d.negative ==> Fixed(d)[1..] == Unsigned(d);
  }

  /** `s` is `[-]digits` or `[-]digits.digits`, the fraction not ending in zero; a minus
      sign stands only before a non-zero number. */
  predicate NormalForm(s: string) {
    if s != "" && s[0] == '-' then NormalUnsigned(true, s[1..]) else NormalUnsigned(false, s)
  }

  predicate NormalUnsigned(negative: bool, u: string) {
    var f := Fraction(u);
    && ('.' !in u ==> IsDigits(u))
    && ('.' in u ==> |f| < |u| && IsDigits(u[..|u| - |f| - 1]) && IsDigits(f) && f[|f| - 1] != '0')
    && (negative ==> ParseUnsigned(true, u).coefficient != 0)
  }

  /** Stripping zeros and the point finds nothing to remove: the fixed notation is final. */
  lemma NumStrIsFixed(d: Decimal)
    ensures NumStr(d) == Fixed(Strip(Rounded(d)))
  {
    hide Rounded, Trimmed;
    var n := Strip(Rounded(d));
    if n.coefficient == 0 {
      assert Unsigned(n) == "0" + Zeros(0);
    } else {
      TrimsNothing(n);
    }
  }

  lemma TrimsNothing(n: Decimal)
    requires n.coefficient % 10 != 0
    ensures Trimmed(Fixed(n)) == Fixed(n)
  {
    hide ParseNat, Digits, Unsigned, Fraction;
    var s, u := Fixed(n), Unsigned(n);
    if n.exponent >= 0 {
      WholeParses(n);
      assert forall i :: 0 <= i < |s| ==> s[i] == '-' || s[i] == u[if n.negative then i - 1 else i];
    } else {
      var whole, f := PointSplits(n, 0 - n.exponent);
      assert s[|s| - 1] == u[|u| - 1] == f[|f| - 1];
    }
  }

  lemma NumStrIsNormal(d: Decimal)
    ensures NormalForm(NumStr(d))
  {
    hide Rounded, NumStr;
    NumStrIsFixed(d);
    FixedIsNormal(Strip(Rounded(d)));
  }

  lemma FixedIsNormal(n: Decimal)
    requires Stripped(n)
    ensures NormalForm(Fixed(n))
  {
    hide NormalUnsigned;
    hide ParseNat, Digits, Unsigned, Strip, Fraction;
    UnsignedParses(n);
    assert n.negative ==> Fixed(n)[1..] == Unsigned(n);
    if n.exponent >= 0 {
      WholeIsNormal(n);
    } else {
      FractionIsNormal(n);
    }
  }

  lemma WholeIsNormal(n: Decimal)
    requires Stripped(n) && n.exponent >= 0
    ensures NormalUnsigned(n.negative, Unsigned(n))
  {
    hide ParseNat, Digits, Unsigned, Strip, Fraction;
    WholeParses(n);
    if n.coefficient > 0 { Order(1, n.coefficient, Pow10(n.exponent)); }
  }

  lemma FractionIsNormal(n: Decimal)
    requires Stripped(n) && n.exponent < 0
    ensures NormalUnsigned(n.negative, Unsigned(n))
  {
    hide ParseNat, Digits, Strip, Fraction, Unsigned, IsDigits;
    var whole, f := PointSplits(n, 0 - n.exponent);
  }

  /** Reading a written number gives the rounded value back. */
  lemma NumStrParses(d: Decimal)
    ensures SameValue(Parse(NumStr(d)), Rounded(d))
  {
    hide Parse, Fixed, Rounded, NumStr, SameValue;
    var r := Rounded(d);
    NumStrIsFixed(d);
    FixedParses(Strip(r));
    StripKeepsValue(r);
    SameValueSymmetric(r, Strip(r));
    SameValueTransitive(Parse(NumStr(d)), Strip(r), r);
  }

  /** Two numbers are written alike exactly when they round to the same value. */
  lemma SameStringIffSameRounding(a: Decimal, b: Decimal)
    ensures NumStr(a) == NumStr(b) <==> SameValue(Rounded(a), Rounded(b))
  {
    hide Parse, Fixed, Rounded, NumStr, SameValue;
    var x, y := Rounded(a), Rounded(b);
    NumStrIsFixed(a);
    NumStrIsFixed(b);
    if SameValue(x, y) {
      StripKeepsValue(x);
      StripKeepsValue(y);
      SameValueSymmetric(x, Strip(x));
      SameValueTransitive(x, y, Strip(y));
      SameValueTransitive(Strip(x), x, Strip(y));
      StrippedUnique(Strip(x), Strip(y));
    }
    if NumStr(a) == NumStr(b) {
      NumStrParses(a);
      NumStrParses(b);
      SameValueSymmetric(Parse(NumStr(a)), x);
      SameValueTransitive(x, Parse(NumStr(a)), y);
    }
  }

  /** A number is written and read back unchanged exactly when it has no non-zero digit
      beyond the 28th. */
  lemma RoundTripIff(d: Decimal)
    ensures SameValue(Parse(NumStr(d)), d) <==> Fits(d)
  {
    hide Parse, NumStr, Rounded, SameValue, Fits;
    var p, r := Parse(NumStr(d)), Rounded(d);
    NumStrParses(d);
    RoundingKeepsValueIff(d);
    SameValueSymmetric(p, r);
    if SameValue(p, d) { SameValueTransitive(r, p, d); }
    if SameValue(r, d) { SameValueTransitive(p, r, d); }
  }

  /** Among numbers that fit, equal strings are equal values. */
  lemma SameStringIffSameValue(a: Decimal, b: Decimal)
    requires Fits(a) && Fits(b)
    ensures NumStr(a) == NumStr(b) <==> SameValue(a, b)
  {
    hide NumStr, Rounded, SameValue, Fits;
    var x, y := Rounded(a), Rounded(b);
    SameStringIffSameRounding(a, b);
    RoundingKeepsValueIff(a);
    RoundingKeepsValueIff(b);
    SameValueSymmetric(x, a);
    SameValueSymmetric(y, b);
    if SameValue(a, b) {
      SameValueTransitive(x, a, b);
      SameValueTransitive(x, b, y);
    }
    if SameValue(x, y) {
      SameValueTransitive(a, x, y);
      SameValueTransitive(a, y, b);
    }
  }

  /** `10^k` and its successor lose their last digit alike. */
  lemma LastDigitLost(k: nat)
    requires k == PRECISION
    ensures Rounded(Decimal(false, Pow10(k), 0)) == Rounded(Decimal(false, Pow10(k) + 1, 0)) == Decimal(false, Pow10(k - 1), 1)
  {
    var p, q, r := Pow10(k), Pow10(k - 1), Pow10(k - 2);
    assert p == 10 * q && q == 10 * r && Pow10(k + 1) == 10 * p && Pow10(1) == 10 * Pow10(0);
    forall n | p <= n <= p + 1 ensures |Digits(n)| == k + 1 {
      DigitCount(n, k);
      DigitCount(n, k + 1);
    }
    hide Digits, Pow10;
    HalfOfTen(p, q, r);
  }

  lemma HalfOfTen(p: nat, q: nat, r: nat)
    requires p == 10 * q && q == 10 * r
    ensures HalfEven(p, 10) == q && HalfEven(p + 1, 10) == q
  {
  }

  /** Two 29-digit numbers that differ in the last digit and are written alike. */
  lemma BeyondPrecisionCollides(k: nat, a: Decimal, b: Decimal)
    requires k == PRECISION && a == Decimal(false, Pow10(k), 0) && b == Decimal(false, Pow10(k) + 1, 0)
    ensures !SameValue(a, b) && NumStr(a) == NumStr(b)
  {
    hide Rounded, Strip, Fixed;
    LastDigitLost(k);
    PowersAtZero(Pow10(k));
    PowersAtZero(Pow10(k) + 1);
  }
}
