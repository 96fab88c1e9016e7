/** Comparing and multiplying decimals: both depend on the value only, and equal values are
    always written alike. */
module DecimalArithmetic {
  import opened Decimals

  predicate Positive(d: Decimal) {
    !d.negative && d.coefficient != 0
  }

  predicate Less(a: Decimal, b: Decimal) {
    Lift(a, Lower(a, b)) < Lift(b, Lower(a, b))
  }

  function Times(a: Decimal, b: Decimal): Decimal {
    Decimal(a.negative != b.negative, a.coefficient * b.coefficient, a.exponent + b.exponent)
  }

  /** A number in digits with at most one point, and a minus in front when negative. */
  predicate IsPlain(s: string) {
    if s != "" && s[0] == '-' then IsPlainUnsigned(s[1..]) else IsPlainUnsigned(s)
  }

  predicate IsPlainUnsigned(s: string) {
    && (exists i :: 0 <= i < |s| && '0' <= s[i] <= '9')
    && forall i :: 0 <= i < |s| ==> '0' <= s[i] <= '9' || (s[i] == '.' && '.' !in s[i + 1..])
  }

  // ----- the value decides -----

  lemma SignOfLift(d: Decimal, m: int)
    requires m <= d.exponent
    ensures Positive(d) <==> Lift(d, m) > 0
  {
    var p := Pow10(d.exponent - m);
    hide Pow10;
    if d.coefficient > 0 { Order(1, d.coefficient, p); } else { assert d.coefficient * p == 0; }
  }

  lemma PositiveByValue(a: Decimal, b: Decimal)
    requires SameValue(a, b)
    ensures Positive(a) <==> Positive(b)
  {
    hide Positive, Lift;
    SignOfLift(a, Lower(a, b));
    SignOfLift(b, Lower(a, b));
  }

  lemma LessAt(a: Decimal, b: Decimal, m: int)
    requires m <= a.exponent && m <= b.exponent
    ensures Less(a, b) <==> Lift(a, m) < Lift(b, m)
  {
    hide Lift, Pow10;
    var l := Lower(a, b);
    LiftFurther(a, l, l - m);
    LiftFurther(b, l, l - m);
    var x, y, p := Lift(a, l), Lift(b, l), Pow10(l - m);
    if x < y { Order(x, y, p); } else { Order(y, x, p); }
  }

  function LowerOf(a: Decimal, b: Decimal, c: Decimal, d: Decimal): (m: int)
    ensures m <= a.exponent && m <= b.exponent && m <= c.exponent && m <= d.exponent
  {
    var x, y := Lower(a, b), Lower(c, d);
    if x <= y then x else y
  }

  lemma LessByValue(a: Decimal, b: Decimal, a': Decimal, b': Decimal)
    requires SameValue(a, a') && SameValue(b, b')
    ensures Less(a, b) <==> Less(a', b')
  {
    hide Lift, Less, SameValue;
    var m := LowerOf(a, b, a', b');
    SameValueAt(a, a', m);
    SameValueAt(b, b', m);
    LessAt(a, b, m);
    LessAt(a', b', m);
  }

  lemma Products(s: bool, x: nat, p: nat, t: bool, y: nat, q: nat)
    ensures Signed(s != t, (x * y) * (p * q)) == Signed(s, x * p) * Signed(t, y * q)
  {
    assert (x * y) * (p * q) == (x * p) * (y * q);
  }

  lemma LiftTimes(a: Decimal, b: Decimal, m: int, n: int)
    requires m <= a.exponent && n <= b.exponent
    ensures Lift(Times(a, b), m + n) == Lift(a, m) * Lift(b, n)
  {
    var i, j := a.exponent - m, b.exponent - n;
    PowersAdd(i, j);
    assert Times(a, b).exponent - (m + n) == i + j;
    hide Pow10;
    Products(a.negative, a.coefficient, Pow10(i), b.negative, b.coefficient, Pow10(j));
  }

  lemma TimesByValue(a: Decimal, b: Decimal, a': Decimal, b': Decimal)
    requires SameValue(a, a') && SameValue(b, b')
    ensures SameValue(Times(a, b), Times(a', b'))
  {
    hide Lift, SameValue;
    var m, n := Lower(a, a'), Lower(b, b');
    SameValueAt(a, a', m);
    SameValueAt(b, b', n);
    LiftTimes(a, b, m, n);
    LiftTimes(a', b', m, n);
    SameValueAt(Times(a, b), Times(a', b'), m + n);
  }

  // ----- equal values are written alike -----

  lemma TenfoldRounds(c: nat, p: nat)
    requires p > 0
    ensures HalfEven(10 * c, 10 * p) == HalfEven(c, p)
  {
    var q, r := c / p, c % p;
    assert c == q * p + r;
    assert 10 * c == q * (10 * p) + 10 * r;
    Quotient(10 * c, 10 * p, q, 10 * r);
  }

  lemma Quotient(n: nat, d: nat, q: nat, r: nat)
    requires n == q * d + r && r < d
    ensures n / d == q && n % d == r
  {
    var k := n / d;
    assert n == k * d + n % d;
    if k < q { Order(k + 1, q, d); }
    if q < k { Order(q + 1, k, d); }
  }

  lemma RoundedTenfold(negative: bool, c: nat, e: int)
    requires c > 0
    ensures SameValue(Rounded(Decimal(negative, 10 * c, e)), Rounded(Decimal(negative, c, e + 1)))
  {
    var x := |Digits(c)| - PRECISION;
    assert |Digits(10 * c)| == |Digits(c)| + 1;
    if x >= 0 {
      TenfoldRounds(c, Pow10(x));
      assert Pow10(x + 1) == 10 * Pow10(x);
      assert x == 0 ==> HalfEven(c, 1) == c;
    } else {
      assert Pow10(1) == 10 * Pow10(0);
    }
  }

  lemma {:induction false} StripRounds(d: Decimal)
    ensures SameValue(Rounded(d), Rounded(Strip(d)))
    decreases d.coefficient
  {
    if d.coefficient == 0 {
      assert forall p: nat :: 0 * p == 0;
    } else if d.coefficient % 10 == 0 {
      var c, e := d.coefficient / 10, Decimal(d.negative, d.coefficient / 10, d.exponent + 1);
      StripRounds(e);
      RoundedTenfold(d.negative, c, d.exponent);
      assert d == Decimal(d.negative, 10 * c, d.exponent);
      hide Rounded, SameValue;
      SameValueTransitive(Rounded(d), Rounded(e), Rounded(Strip(e)));
    } else {
      hide Rounded;
      SameAsItself(Rounded(d));
    }
  }

  lemma SameAsItself(d: Decimal)
    ensures SameValue(d, d)
  {
  }

  /** Equal values are written alike, however many digits they were booked with. */
  lemma EqualValuesWrittenAlike(a: Decimal, b: Decimal)
    requires SameValue(a, b)
    ensures NumStr(a) == NumStr(b)
  {
    hide NumStr, Rounded, SameValue, Strip, Stripped;
    StripKeepsValue(a);
    StripKeepsValue(b);
    SameValueSymmetric(a, Strip(a));
    SameValueTransitive(Strip(a), a, b);
    SameValueTransitive(Strip(a), b, Strip(b));
    StrippedUnique(Strip(a), Strip(b));
    StripRounds(a);
    StripRounds(b);
    SameValueSymmetric(Rounded(b), Rounded(Strip(b)));
    SameValueTransitive(Rounded(a), Rounded(Strip(a)), Rounded(b));
    SameStringIffSameRounding(a, b);
  }

  lemma PowerDigits(k: nat)
    requires k > 0
    ensures |Digits(Pow10(k))| == k + 1 && Pow10(k) % 10 == 0
  {
    assert Pow10(k) == 10 * Pow10(k - 1) && Pow10(k + 1) == 10 * Pow10(k);
    DigitCount(Pow10(k), k);
    DigitCount(Pow10(k), k + 1);
  }

  lemma AtMostFits(d: Decimal, k: nat)
    requires k == PRECISION && d.coefficient <= Pow10(k)
    ensures Fits(d)
  {
    assert Pow10(1) == 10 * Pow10(0);
    hide Pow10, Digits;
    DigitCount(d.coefficient, k);
    PowerDigits(k);
  }

  /** Rounding twice is rounding once. */
  lemma RoundingFits(d: Decimal)
    ensures Fits(Rounded(d))
  {
    hide Pow10, Digits, HalfEven;
    var k := |Digits(d.coefficient)| - PRECISION;
    if k > 0 {
      RoundedIsNearest(d, k);
      hide Fits, Rounded;
      AtMostFits(Rounded(d), PRECISION);
    }
  }

  lemma RoundedWrittenAlike(d: Decimal)
    ensures NumStr(Rounded(d)) == NumStr(d)
  {
    hide NumStr, Rounded, SameValue, Fits;
    RoundingFits(d);
    RoundingKeepsValueIff(Rounded(d));
    SameStringIffSameRounding(Rounded(d), d);
  }
}
