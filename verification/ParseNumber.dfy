/** The fast path of parseNumber (number.go): decimal text that one exact float64 operation can convert. */
module ParseNumber {
  import opened ByteStrings
  import opened Decimal

  const PLUS: Byte := '+' as int
  const MINUS: Byte := '-' as int

  predicate IsSign(c: Byte) {
    c == PLUS || c == MINUS
  }

  predicate IsExponentMark(c: Byte) {
    c == 'e' as int || c == 'E' as int
  }

  // ------------------------------------------------------------- the grammar

  datatype Exponent = Exponent(mark: Byte, sign: Option<Byte>, digits: Bytes)

  /**
   * An optional sign (43 or 45), digits, an optional point (46) with digits,
   * an optional exponent: a mark (69 or 101), an optional sign, digits.
   */
  datatype Literal = Literal(sign: Option<Byte>, whole: Bytes, frac: Option<Bytes>, exp: Option<Exponent>)

  function Fraction(l: Literal): Bytes {
    if l.frac.Some? then l.frac.value else []
  }

  predicate GoodSign(sign: Option<Byte>) {
    sign.None? || sign.value == 43 || sign.value == 45
  }

  predicate ValidExponent(e: Exponent) {
    (e.mark == 69 || e.mark == 101) && GoodSign(e.sign) && AllDigits(e.digits) && e.digits != []
  }

  predicate ValidLiteral(l: Literal) {
    && GoodSign(l.sign) && AllDigits(l.whole) && AllDigits(Fraction(l))
    && |l.whole| + |Fraction(l)| > 0 && (l.exp.Some? ==> ValidExponent(l.exp.value))
  }

  function SignText(sign: Option<Byte>): Bytes {
    if sign.Some? then [sign.value] else []
  }

  function FracText(frac: Option<Bytes>): Bytes {
    if frac.Some? then [46] + frac.value else []
  }

  function ExpText(exp: Option<Exponent>): Bytes {
    if exp.Some? then [exp.value.mark] + SignText(exp.value.sign) + exp.value.digits else []
  }

  function TextOf(l: Literal): Bytes {
    SignText(l.sign) + l.whole + FracText(l.frac) + ExpText(l.exp)
  }

  // --------------------------------------------------------------- the value

  /** The number of digits from the first one that is not 0. */
  function Significant(ds: Bytes): (n: nat)
    requires AllDigits(ds)
    ensures n <= |ds|
  {
    if ds == [] then 0
    else
      var n := Significant(ds[..|ds| - 1]);
      if n == 0 && ds[|ds| - 1] == ZERO then 0 else n + 1
  }

  /** What the loop over the exponent digits computes: it stops growing at 100000. */
  function Saturated(ds: Bytes): nat
    requires AllDigits(ds)
  {
    if ds == [] then 0
    else
      var v := Saturated(ds[..|ds| - 1]);
      if v < 100000 then 10 * v + (ds[|ds| - 1] - ZERO) else v
  }

  function Signed(sign: Option<Byte>, v: int): int {
    if sign == Some(MINUS) then -v else v
  }

  function Mantissa(l: Literal): nat
    requires ValidLiteral(l)
  {
    Value(l.whole + Fraction(l))
  }

  function WrittenExponent(e: Exponent): int
    requires ValidExponent(e)
  {
    var n: int := Value(e.digits);
    if e.sign == Some(45) then -n else n
  }

  /** The literal denotes Mantissa * 10 ^ Scale, with the sign of the literal. */
  function Scale(l: Literal): int
    requires ValidLiteral(l)
  {
    (if l.exp.Some? then WrittenExponent(l.exp.value) else 0) - |Fraction(l)|
  }

  /** A literal is negative if its text begins with a minus sign (45). */
  predicate Negative(s: Bytes) {
    s != [] && s[0] == 45
  }

  function ComputedScale(l: Literal): int
    requires ValidLiteral(l)
  {
    (if l.exp.Some? then Signed(l.exp.value.sign, Saturated(l.exp.value.digits)) else 0) - |Fraction(l)|
  }

  /** Fast stands for the single float64 operation that gives m * 10 ^ e, correctly rounded. */
  datatype Outcome = NotANumber | Fast(neg: bool, m: nat, e: int) | Slow

  function OutcomeOf(l: Literal): Outcome
    requires ValidLiteral(l)
  {
    var m, e := Mantissa(l), ComputedScale(l);
    if Significant(l.whole + Fraction(l)) > 15 then Slow
    else if m == 0 || -22 <= e <= 22 then Fast(l.sign == Some(MINUS), m, e)
    else Slow
  }

  // ------------------------------------------------------------- exactness

  /** Whether m * 10 ^ e and n * 10 ^ f are the same number. */
  predicate SameDecimal(m: nat, e: int, n: nat, f: int) {
    if e >= f then m * Pow10(e - f) == n else m == n * Pow10(f - e)
  }

  /** The number the first six significant digits form. */
  function FirstSix(ds: Bytes): nat
    requires AllDigits(ds)
  {
    if Significant(ds) <= 6 then Value(ds) else Value(ds) / Pow10(Significant(ds) - 6)
  }

  /** At most 15 significant digits, counting those of the fraction. */
  predicate IsShort(l: Literal)
    requires ValidLiteral(l)
  {
    Significant(l.whole + Fraction(l)) <= 15
  }

  /** The digits of the exponent form a number of a million or more. */
  predicate HasLongExponent(l: Literal)
    requires ValidLiteral(l)
  {
    l.exp.Some? && Value(l.exp.value.digits) >= 1000000
  }

  /** The fast path is taken, with the sign and operands that give the number written. */
  predicate ReadRight(l: Literal)
    requires ValidLiteral(l)
  {
    var r := OutcomeOf(l);
    r.Fast? && r.neg == Negative(TextOf(l)) && SameDecimal(r.m, r.e, Mantissa(l), Scale(l))
  }

  /** The fast path is taken, with a sign or operands that give another number. */
  predicate ReadWrong(l: Literal)
    requires ValidLiteral(l)
  {
    var r := OutcomeOf(l);
    r.Fast? && !(r.neg == Negative(TextOf(l)) && SameDecimal(r.m, r.e, Mantissa(l), Scale(l)))
  }

  function Pow10(n: nat): (p: nat)
    ensures p > 0
  {
    if n == 0 then 1 else 10 * Pow10(n - 1)
  }

  /** n significant digits give a number with n digits. */
  lemma {:induction false} SignificantBound(ds: Bytes)
    requires AllDigits(ds)
    ensures Value(ds) < Pow10(Significant(ds))
    ensures Significant(ds) > 0 ==> Value(ds) >= Pow10(Significant(ds) - 1)
    ensures Significant(ds) == 0 <==> Value(ds) == 0
  {
    if ds != [] {
      SignificantBound(ds[..|ds| - 1]);
    }
  }

  lemma {:induction false} Pow10Grows(a: nat, b: nat)
    requires a <= b
    ensures Pow10(a) <= Pow10(b)
  {
    if a < b {
      Pow10Grows(a, b - 1);
    }
  }

  /**
   * Float64 represents both operands of the fast path exactly, and their product or quotient is the
   * value if the scale is right.
   */
  lemma {:induction false} FastOperands(l: Literal)
    requires ValidLiteral(l) && OutcomeOf(l).Fast?
    ensures var r := OutcomeOf(l);
            && r.m == Mantissa(l) && r.m < Pow10(15) && (r.m == 0 || -22 <= r.e <= 22)
            && (r.neg <==> Negative(TextOf(l)))
  {
    var ds := l.whole + Fraction(l);
    SignShows(l);
    SignificantBound(ds);
    Pow10Grows(Significant(ds), 15);
  }

  lemma {:induction false} Pow10Sum(a: nat, b: nat)
    ensures Pow10(a + b) == Pow10(a) * Pow10(b)
  {
    if a > 0 {
      Pow10Sum(a - 1, b);
      assert Pow10(a + b) == 10 * (Pow10(a - 1) * Pow10(b)) == (10 * Pow10(a - 1)) * Pow10(b);
    }
  }

  lemma {:induction false} TimesGrows(a: nat, b: nat, p: nat)
    ensures a <= b ==> a * p <= b * p
  {
  }

  lemma {:induction false} QuotientIs(a: nat, b: nat, q: nat, r: nat)
    requires b > 0 && a == q * b + r && r < b
    ensures a / b == q
  {
    var p := a / b;
    assert a == p * b + a % b;
    TimesGrows(p + 1, q, b);
    TimesGrows(q + 1, p, b);
  }

  /** A last digit is dropped by the division. */
  lemma {:induction false} DropDigit(x: nat, d: nat, p: nat)
    requires d < 10 && p > 0
    ensures (10 * x + d) / (10 * p) == x / p
  {
    var q, r := x / p, x % p;
    assert x == q * p + r;
    assert 10 * x + d == q * (10 * p) + (10 * r + d) by {
      assert 10 * (q * p) == q * (10 * p);
    }
    QuotientIs(10 * x + d, 10 * p, q, 10 * r + d);
  }

  lemma {:induction false} QuotientBounds(x: nat, p: nat, b: nat)
    requires p > 0
    ensures x / p < b <==> x < b * p
  {
    var q := x / p;
    assert x == q * p + x % p;
    TimesGrows(q + 1, b, p);
    TimesGrows(b, q, p);
  }

  /** With n > 6 digits, the first six form a number of six digits. */
  lemma {:induction false} SixDigits(x: nat, n: nat)
    requires n > 6 && x >= Pow10(n - 1)
    ensures x / Pow10(n - 6) >= 100000
  {
    FifthPower();
    Pow10Sum(5, n - 6);
    QuotientBounds(x, Pow10(n - 6), 100000);
  }

  lemma {:induction false} SaturatedVal(ds: Bytes)
    requires AllDigits(ds)
    ensures Saturated(ds) == Value(ds) || (Saturated(ds) >= 100000 && Value(ds) > Saturated(ds))
  {
    if ds != [] {
      SaturatedVal(ds[..|ds| - 1]);
    }
  }

  /** The loop over the exponent digits keeps the first six significant ones. */
  lemma {:induction false} SaturatedIs(ds: Bytes)
    requires AllDigits(ds)
    ensures Saturated(ds) == FirstSix(ds)
  {
    if ds != [] {
      var init, d := ds[..|ds| - 1], ds[|ds| - 1] - ZERO;
      var n := Significant(init);
      SaturatedIs(init);
      SignificantBound(init);
      FifthPower();
      if n <= 5 {
        Pow10Grows(n, 5);
      } else if n == 6 {
        DropDigit(Value(init), d, 1);
        assert Pow10(1) == 10;
      } else {
        SixDigits(Value(init), n);
        DropDigit(Value(init), d, Pow10(n - 6));
      }
    }
  }

  /** It computes the exponent written exactly if that is less than a million. */
  lemma {:induction false} SaturatesAt(ds: Bytes)
    requires AllDigits(ds)
    ensures Saturated(ds) == Value(ds) <==> Value(ds) < 1000000
    ensures Saturated(ds) < 1000000
  {
    SaturatedIs(ds);
    SignificantBound(ds);
    FifthPower();
    var n := Significant(ds);
    if n <= 6 {
      Pow10Grows(n, 6);
    } else {
      Pow10Grows(6, n - 1);
      FirstSixBelow(Value(ds), n);
    }
  }

  lemma {:induction false} FirstSixBelow(x: nat, n: nat)
    requires n > 6 && x < Pow10(n)
    ensures x / Pow10(n - 6) < 1000000
  {
    FifthPower();
    Pow10Sum(6, n - 6);
    QuotientBounds(x, Pow10(n - 6), 1000000);
  }

  lemma {:induction false} SameDecimalScale(m: nat, e: int, f: int)
    ensures SameDecimal(m, e, m, f) <==> m == 0 || e == f
  {
    if e != f && m > 0 {
      var k: nat := if e > f then e - f else f - e;
      assert Pow10(k) == 10 * Pow10(k - 1);
      assert m * Pow10(k) >= m * 10;
    }
  }

  /**
   * The fast path gives the number written exactly for short literals that
   * are 0 or have a small scale and no long exponent. It gives another one
   * exactly for short literals with a long exponent whose first six digits
   * make up for the digits of the fraction.
   */
  lemma {:induction false} FastExact(l: Literal)
    requires ValidLiteral(l)
    ensures ReadRight(l) <==>
            IsShort(l) && (Mantissa(l) == 0 || (!HasLongExponent(l) && -22 <= Scale(l) <= 22))
    ensures ReadWrong(l) <==>
            && IsShort(l) && Mantissa(l) > 0 && HasLongExponent(l) && l.exp.value.sign != Some(MINUS)
            && -22 <= FirstSix(l.exp.value.digits) - |Fraction(l)| <= 22
  {
    SignShows(l);
    SameDecimalScale(Mantissa(l), ComputedScale(l), Scale(l));
    if l.exp.Some? {
      SaturatesAt(l.exp.value.digits);
      SaturatedVal(l.exp.value.digits);
      SaturatedIs(l.exp.value.digits);
    }
  }

  /** With fewer than 99978 fraction digits it always gives the number written. */
  lemma {:induction false} ShortFractionsExact(l: Literal)
    requires ValidLiteral(l) && OutcomeOf(l).Fast? && |Fraction(l)| < 99978
    ensures OutcomeOf(l).m == 0 || OutcomeOf(l).e == Scale(l)
    ensures ReadRight(l)
  {
    SignShows(l);
    SameDecimalScale(Mantissa(l), ComputedScale(l), Scale(l));
    if l.exp.Some? {
      SaturatedVal(l.exp.value.digits);
    }
  }

  function Zeros(n: nat): (ds: Bytes)
    ensures |ds| == n && AllDigits(ds)
  {
    seq(n, _ => ZERO)
  }

  lemma {:induction false} ZerosVal(n: nat)
    ensures Value(Zeros(n)) == 0 && Significant(Zeros(n)) == 0 && Saturated(Zeros(n)) == 0
  {
    if n > 0 {
      ZerosVal(n - 1);
      assert Zeros(n)[..n - 1] == Zeros(n - 1);
    }
  }

  const ONE: Byte := ZERO + 1

  lemma {:induction false} ZerosOne(n: nat)
    ensures AllDigits(Zeros(n) + [ONE]) && Value(Zeros(n) + [ONE]) == 1 && Significant(Zeros(n) + [ONE]) == 1
  {
    ZerosVal(n);
    assert (Zeros(n) + [ONE])[..n] == Zeros(n);
  }

  lemma {:induction false} OneZeros(n: nat)
    ensures AllDigits([ONE] + Zeros(n)) && Value([ONE] + Zeros(n)) == Pow10(n)
    ensures Saturated([ONE] + Zeros(n)) == Pow10(if n < 5 then n else 5)
  {
    var ds := [ONE] + Zeros(n);
    if n == 0 {
      assert ds[..0] == [];
    } else {
      OneZeros(n - 1);
      assert Zeros(n) == Zeros(n - 1) + [ZERO];
      assert ds[..n] == [ONE] + Zeros(n - 1);
      FifthPower();
      if n - 1 < 5 {
        Pow10Grows(n - 1, 4);
      }
    }
  }

  lemma {:induction false} FifthPower()
    ensures Pow10(4) == 10000 && Pow10(5) == 100000 && Pow10(6) == 1000000
  {
    assert Pow10(1) == 10 && Pow10(2) == 100 && Pow10(3) == 1000;
  }

  /** "." followed by 99977 zeros and a 1, times 10 to the power of 1000000. */
  function LongFraction(): (l: Literal)
    ensures ValidLiteral(l)
  {
    Literal(None, [], Some(Zeros(99977) + [ONE]), Some(Exponent('e' as int, None, [ONE] + Zeros(6))))
  }

  /** The bound is sharp: this number is 10 ^ 900022, but the fast path gives 10 ^ 22. */
  lemma {:induction false} LongFractionInexact()
    ensures OutcomeOf(LongFraction()) == Fast(false, 1, 22)
    ensures Mantissa(LongFraction()) == 1 && Scale(LongFraction()) == 900022
    ensures ReadWrong(LongFraction())
  {
    var l := LongFraction();
    SignShows(l);
    SameDecimalScale(1, 22, 900022);
    ZerosOne(99977);
    OneZeros(6);
    FifthPower();
    assert l.whole + Fraction(l) == Zeros(99977) + [ONE];
  }

  // ----------------------------------------------------------------- parsing

  ghost predicate Spells(l: Literal, s: Bytes) {
    ValidLiteral(l) && TextOf(l) == s
  }

  predicate NoDigitFirst(s: Bytes) {
    s == [] || !IsDigit(s[0])
  }

  /** Where the digits from position i on end. */
  ghost predicate DigitsEnd(s: Bytes, i: nat, j: nat) {
    i <= j <= |s| && (forall k :: i <= k < j ==> IsDigit(s[k])) && (j < |s| ==> !IsDigit(s[j]))
  }

  method SkipDigits(s: Bytes, i: nat) returns (j: nat)
    requires i <= |s|
    ensures DigitsEnd(s, i, j)
  {
    j := i;
    while j < |s| && IsDigit(s[j])
      invariant i <= j <= |s| && forall k :: i <= k < j ==> IsDigit(s[k])
    {
      j := j + 1;
    }
  }

  /** Digits end where other text begins. */
  lemma {:induction false} DigitsSplit(s: Bytes, a: Bytes, ds: Bytes, rest: Bytes, j: nat)
    requires s == a + ds + rest && AllDigits(ds) && NoDigitFirst(rest) && DigitsEnd(s, |a|, j)
    ensures j == |a| + |ds| && s[|a|..j] == ds && s[j..] == rest
  {
    var e := |a| + |ds|;
    assert s[e..] == rest && s[|a|..e] == ds;
    assert forall k :: |a| <= k < e ==> s[k] == ds[k - |a|];
    assert e < |s| ==> s[e] == rest[0];
  }

  /** The sign, the digits before the point and those after it, as scanned. */
  datatype Scan = Scan(sign: Option<Byte>, whole: Bytes, frac: Option<Bytes>, rest: Bytes)

  ghost predicate Scanned(s: Bytes, i: nat, j: nat, k: nat, sc: Scan) {
    && sc.sign == (if s != [] && IsSign(s[0]) then Some(s[0]) else None) && i == |SignText(sc.sign)|
    && DigitsEnd(s, i, j) && sc.whole == s[i..j]
    && (if j < |s| && s[j] == DOT then DigitsEnd(s, j + 1, k) && sc.frac == Some(s[j + 1..k])
        else k == j && sc.frac == None)
    && k <= |s| && sc.rest == s[k..]
  }

  lemma {:induction false} Slices(s: Bytes, i: nat, j: nat, k: nat)
    requires i <= j <= k <= |s|
    ensures s == s[..i] + s[i..j] + s[j..k] + s[k..]
  {
  }

  lemma {:induction false} FracSlice(s: Bytes, j: nat, k: nat, frac: Option<Bytes>)
    requires j <= k <= |s|
    requires if j < |s| && s[j] == DOT then j < k && frac == Some(s[j + 1..k]) else k == j && frac == None
    ensures FracText(frac) == s[j..k]
  {
  }

  lemma {:induction false} ScannedText(s: Bytes, i: nat, j: nat, k: nat, sc: Scan)
    requires Scanned(s, i, j, k, sc)
    ensures s == SignText(sc.sign) + sc.whole + FracText(sc.frac) + sc.rest
    ensures AllDigits(sc.whole) && (sc.frac.Some? ==> AllDigits(sc.frac.value))
    ensures (sc.sign.Some? ==> IsSign(sc.sign.value))
  {
    Slices(s, i, j, k);
    FracSlice(s, j, k, sc.frac);
    assert SignText(sc.sign) == s[..i];
  }

  lemma {:induction false} Regroup(a: Bytes, b: Bytes, c: Bytes, d: Bytes)
    ensures a + b + c + d == a + (b + c + d) == a + b + (c + d)
  {
  }

  lemma {:induction false} DotInside(a: Bytes, b: Bytes, c: Bytes, d: Bytes)
    ensures a + b + ([DOT] + c) + d == a + b + [DOT] + c + d
  {
  }

  /** What comes after the sign. */
  function AfterSign(l: Literal): Bytes {
    l.whole + FracText(l.frac) + ExpText(l.exp)
  }

  /** What comes after the digits before the point. */
  function AfterWhole(l: Literal): Bytes {
    FracText(l.frac) + ExpText(l.exp)
  }

  lemma {:induction false} AfterSignStarts(l: Literal)
    requires ValidLiteral(l)
    ensures AfterSign(l) != [] && !IsSign(AfterSign(l)[0])
  {
    var t := AfterSign(l);
    if l.whole != [] {
      assert t[0] == l.whole[0];
    } else {
      assert t[0] == DOT;
    }
  }

  lemma {:induction false} SignShows(l: Literal)
    requires ValidLiteral(l)
    ensures Negative(TextOf(l)) <==> l.sign == Some(45)
  {
    Regroup(SignText(l.sign), l.whole, FracText(l.frac), ExpText(l.exp));
    AfterSignStarts(l);
    FirstOf(SignText(l.sign), AfterSign(l));
  }

  lemma {:induction false} AfterWholeStarts(l: Literal)
    requires ValidLiteral(l)
    ensures var t := AfterWhole(l);
            && NoDigitFirst(t) && (l.frac.Some? <==> t != [] && t[0] == DOT)
            && (l.frac.None? ==> t == ExpText(l.exp))
  {
    var t := AfterWhole(l);
    if l.frac.None? {
      assert t == ExpText(l.exp);
    }
  }

  lemma {:induction false} FirstOf(a: Bytes, b: Bytes)
    ensures a + b != [] ==> (a + b)[0] == if a != [] then a[0] else b[0]
    ensures a == [] ==> a + b == b
  {
  }

  lemma {:induction false} SpelledSign(s: Bytes, l: Literal, sign: Option<Byte>)
    requires Spells(l, s) && sign == if s != [] && IsSign(s[0]) then Some(s[0]) else None
    ensures l.sign == sign
  {
    Regroup(SignText(l.sign), l.whole, FracText(l.frac), ExpText(l.exp));
    AfterSignStarts(l);
    FirstOf(SignText(l.sign), AfterSign(l));
  }

  /** A literal the text spells has the scanned parts. */
  lemma {:induction false} SpelledParts(s: Bytes, l: Literal, i: nat, j: nat, k: nat, sc: Scan)
    requires Spells(l, s) && Scanned(s, i, j, k, sc)
    ensures l.sign == sc.sign && l.whole == sc.whole && l.frac == sc.frac && ExpText(l.exp) == sc.rest
  {
    SpelledSign(s, l, sc.sign);
    SpelledWhole(s, l, j);
    if l.frac.Some? {
      SpelledFraction(s, l, k);
    }
  }

  lemma {:induction false} SpelledWhole(s: Bytes, l: Literal, j: nat)
    requires Spells(l, s) && DigitsEnd(s, |SignText(l.sign)|, j)
    ensures j == |SignText(l.sign)| + |l.whole| && s[|SignText(l.sign)|..j] == l.whole
    ensures l.frac.Some? <==> j < |s| && s[j] == DOT
    ensures l.frac.None? ==> s[j..] == ExpText(l.exp)
  {
    Regroup(SignText(l.sign), l.whole, FracText(l.frac), ExpText(l.exp));
    AfterWholeStarts(l);
    DigitsSplit(s, SignText(l.sign), l.whole, AfterWhole(l), j);
    FirstOfSlice(s, j);
  }

  lemma {:induction false} FirstOfSlice(s: Bytes, j: nat)
    requires j <= |s|
    ensures s[j..] != [] <==> j < |s|
    ensures j < |s| ==> s[j..][0] == s[j]
  {
  }

  lemma {:induction false} SpelledFraction(s: Bytes, l: Literal, k: nat)
    requires Spells(l, s) && l.frac.Some? && DigitsEnd(s, |SignText(l.sign)| + |l.whole| + 1, k)
    ensures k <= |s| && s[|SignText(l.sign)| + |l.whole| + 1..k] == l.frac.value && s[k..] == ExpText(l.exp)
  {
    DotInside(SignText(l.sign), l.whole, l.frac.value, ExpText(l.exp));
    DigitsSplit(s, SignText(l.sign) + l.whole + [DOT], l.frac.value, ExpText(l.exp), k);
  }

  /** The exponent, as scanned: its mark, its sign, its digits, and what follows. */
  ghost predicate ScannedExponent(t: Bytes, i: nat, j: nat, e: Exponent) {
    && t != [] && IsExponentMark(t[0]) && e.mark == t[0]
    && e.sign == (if |t| > 1 && IsSign(t[1]) then Some(t[1]) else None) && i == 1 + |SignText(e.sign)|
    && DigitsEnd(t, i, j) && e.digits == t[i..j]
  }

  lemma {:induction false} SpelledExponent(t: Bytes, x: Exponent, i: nat, j: nat, e: Exponent)
    requires ValidExponent(x) && t == ExpText(Some(x)) && ScannedExponent(t, i, j, e)
    ensures x == e && j == |t|
  {
    assert t == [x.mark] + (SignText(x.sign) + x.digits);
    assert x.sign.None? ==> t[1] == x.digits[0];
    var a := [x.mark] + SignText(x.sign);
    assert t == a + x.digits + [];
    DigitsSplit(t, a, x.digits, [], j);
  }

  /** The loop over the mantissa: up to 15 significant digits are read. */
  method ReadMantissa(ds: Bytes) returns (m: nat, ok: bool)
    requires AllDigits(ds)
    ensures ok <==> Significant(ds) <= 15
    ensures ok ==> m == Value(ds)
  {
    m := 0;
    var sig := 0;
    ok := true;
    for j := 0 to |ds|
      invariant sig == Significant(ds[..j]) && sig <= 15 && m == Value(ds[..j])
    {
      assert ds[..j + 1][..j] == ds[..j];
      SignificantBound(ds[..j]);
      if m == 0 && ds[j] == ZERO {
        continue;
      }
      if sig == 15 {
        SignificantGrows(ds, j + 1);
        return m, false;
      }
      m := m * 10 + (ds[j] - ZERO);
      sig := sig + 1;
    }
    TakeAll(ds);
  }

  lemma {:induction false} SignificantGrows(ds: Bytes, j: nat)
    requires AllDigits(ds) && j <= |ds|
    ensures Significant(ds[..j]) <= Significant(ds)
    decreases |ds|
  {
    if j < |ds| {
      SignificantGrows(ds[..|ds| - 1], j);
      assert ds[..|ds| - 1][..j] == ds[..j];
    } else {
      TakeAll(ds);
    }
  }

  /** The loop over the exponent digits. */
  method ReadExponent(ds: Bytes) returns (exp: nat)
    requires AllDigits(ds)
    ensures exp == Saturated(ds)
  {
    exp := 0;
    for i := 0 to |ds|
      invariant exp == Saturated(ds[..i])
    {
      assert ds[..i + 1][..i] == ds[..i];
      if exp < 100000 {
        exp := exp * 10 + (ds[i] - ZERO);
      }
    }
    TakeAll(ds);
  }

  /** parseNumber accepts exactly the literals, and computes their outcome; a text spells at most one. */
  method Parse(s: Bytes) returns (r: Outcome, ghost l: Literal)
    ensures r.NotANumber? ==> forall k :: !Spells(k, s)
    ensures !r.NotANumber? ==> Spells(l, s) && forall k :: Spells(k, s) ==> k == l
    ensures forall k :: Spells(k, s) ==> r == OutcomeOf(k)
    ensures r.Fast? ==> (r.neg <==> Negative(s))
  {
    l := Literal(None, [], None, None);
    var sign := if s != [] && IsSign(s[0]) then Some(s[0]) else None;
    var start := if sign.Some? then 1 else 0;
    var j := SkipDigits(s, start);
    var k, frac := j, None;
    if j < |s| && s[j] == DOT {
      k := SkipDigits(s, j + 1);
      frac := Some(s[j + 1..k]);
    }
    ghost var sc := Scan(sign, s[start..j], frac, s[k..]);
    ScannedText(s, start, j, k, sc);
    forall x | Spells(x, s)
      ensures x.sign == sc.sign && x.whole == sc.whole && x.frac == sc.frac && ExpText(x.exp) == sc.rest
      ensures ValidLiteral(x)
    {
      SpelledParts(s, x, start, j, k, sc);
    }
    var digits := s[start..j] + if frac.Some? then frac.value else [];
    if digits == [] {
      return NotANumber, l;
    }
    var found, exp := ParseExponent(s[k..]);
    if exp.None? && s[k..] != [] {
      return NotANumber, l;
    }
    l := Literal(sign, s[start..j], frac, exp);
    r := Convert(sign == Some(MINUS), digits, if frac.Some? then |frac.value| else 0, found, l);
  }

  /** The exponent part t of a number, if it is one. */
  method ParseExponent(t: Bytes) returns (v: int, exp: Option<Exponent>)
    ensures exp.Some? ==> ValidExponent(exp.value) && t == ExpText(exp)
    ensures exp.Some? ==> v == Signed(exp.value.sign, Saturated(exp.value.digits))
    ensures exp.None? ==> v == 0
    ensures forall x :: ValidExponent(x) && t == ExpText(Some(x)) ==> exp == Some(x)
  {
    v, exp := 0, None;
    if t == [] || !IsExponentMark(t[0]) {
      return;
    }
    var sign := if |t| > 1 && IsSign(t[1]) then Some(t[1]) else None;
    var i := if sign.Some? then 2 else 1;
    var j := SkipDigits(t, i);
    var e := Exponent(t[0], sign, t[i..j]);
    forall x | ValidExponent(x) && t == ExpText(Some(x)) ensures x == e && j == |t| {
      SpelledExponent(t, x, i, j, e);
    }
    if i == j || j != |t| {
      return;
    }
    v := ReadExponent(t[i..j]);
    v := Signed(sign, v);
    exp := Some(e);
    assert t == [t[0]] + SignText(sign) + t[i..j];
  }

  /** The conversion at the end of parseNumber. */
  method Convert(neg: bool, digits: Bytes, fracDigits: nat, exp: int, ghost l: Literal) returns (r: Outcome)
    requires ValidLiteral(l) && digits == l.whole + Fraction(l) && fracDigits == |Fraction(l)|
    requires neg == (l.sign == Some(MINUS))
    requires exp == if l.exp.Some? then Signed(l.exp.value.sign, Saturated(l.exp.value.digits)) else 0
    ensures r == OutcomeOf(l) && (r.Fast? ==> (r.neg <==> Negative(TextOf(l))))
  {
    SignShows(l);
    var m, ok := ReadMantissa(digits);
    if !ok {
      return Slow;
    }
    var e := exp - fracDigits;
    if m == 0 || (-23 < e && e < 23) {
      return Fast(neg, m, e);
    }
    return Slow;
  }
}
