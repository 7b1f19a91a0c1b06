/**
 * The text of JSON events (sections 2, 3, 6 and 7 of RFC 8259): white space
 * and the tokens between it (ws, literal, number and decodeStr in matchjson.go).
 * What the escapes in a string stand for is left to a function.
 */
module JsonText {
  import opened ByteStrings
  import opened Decimal
  import opened JsonGrammar
  import Rules
  import ParseNumber

  /** What the content of a string stands for. */
  type Decode = Bytes -> Bytes

  const QUOTE: Byte := '"' as int
  const NULL: Bytes := ['n' as int, 'u' as int, 'l' as int, 'l' as int]

  predicate IsSpace(c: Byte) {
    c == ' ' as int || c == 9 || c == 10 || c == 13
  }

  predicate StartsWith(t: Bytes, c: Byte) {
    t != [] && t[0] == c
  }

  // ----------------------------------------------------------------- numbers

  /** The digits at the start of t. */
  function Digits(t: Bytes): (n: nat)
    ensures n <= |t|
  {
    if t != [] && IsDigit(t[0]) then 1 + Digits(t[1..]) else 0
  }

  /** A number of JSON: no plus sign, no leading zeros, digits on both sides of the point. */
  predicate IsNumber(l: ParseNumber.Literal) {
    && ParseNumber.ValidLiteral(l) && (l.sign.Some? ==> l.sign == Some(45))
    && GoodWhole(l.whole) && (l.frac.Some? ==> l.frac.value != [])
  }

  predicate GoodWhole(whole: Bytes) {
    whole != [] && (whole[0] == 48 ==> |whole| == 1)
  }

  predicate Mark(t: Bytes) {
    t != [] && ParseNumber.IsExponentMark(t[0])
  }

  /** rest cannot continue the number: it would have been read as a part of it. */
  predicate Ends(l: ParseNumber.Literal, rest: Bytes) {
    && (l.exp.Some? || l.frac.Some? || l.whole != [ZERO] ==> ParseNumber.NoDigitFirst(rest))
    && (l.exp.None? ==> !Mark(rest)) && (l.exp.None? && l.frac.None? ==> !StartsWith(rest, DOT))
  }

  ghost predicate NumberAt(t: Bytes, n: nat, l: ParseNumber.Literal) {
    n <= |t| && IsNumber(l) && t[..n] == ParseNumber.TextOf(l) && Ends(l, t[n..])
  }

  function WholeLength(t: Bytes): (n: nat)
    ensures n <= |t|
  {
    if StartsWith(t, ZERO) then 1 else Digits(t)
  }

  /** The length of a fraction at the start of t, or None if a point has no digits. */
  function FracLength(t: Bytes): (n: Option<nat>)
    ensures n.Some? ==> n.value <= |t|
  {
    if !StartsWith(t, DOT) then Some(0)
    else if Digits(t[1..]) == 0 then None
    else Some(1 + Digits(t[1..]))
  }

  function SignLength(t: Bytes): (n: nat)
    ensures n <= |t|
  {
    if t != [] && ParseNumber.IsSign(t[0]) then 1 else 0
  }

  function ExpLength(t: Bytes): (n: Option<nat>)
    ensures n.Some? ==> n.value <= |t|
  {
    if !Mark(t) then Some(0)
    else
      var s := 1 + SignLength(t[1..]);
      if Digits(t[s..]) == 0 then None else Some(s + Digits(t[s..]))
  }

  function Plus(n: nat, m: Option<nat>): Option<nat> {
    if m.None? then None else Some(n + m.value)
  }

  function AfterWholeLength(t: Bytes): (n: Option<nat>)
    ensures n.Some? ==> n.value <= |t|
  {
    match FracLength(t)
    case None => None
    case Some(f) => Plus(f, ExpLength(t[f..]))
  }

  function AfterSignLength(t: Bytes): (n: Option<nat>)
    ensures n.Some? ==> n.value <= |t|
  {
    var w := WholeLength(t);
    if w == 0 then None else Plus(w, AfterWholeLength(t[w..]))
  }

  /** The length of the number at the start of t. */
  function NumberLength(t: Bytes): (n: Option<nat>)
    ensures n.Some? ==> n.value <= |t|
  {
    if StartsWith(t, ParseNumber.MINUS) then Plus(1, AfterSignLength(t[1..])) else AfterSignLength(t)
  }

  lemma {:induction false} DigitsAre(ds: Bytes, rest: Bytes)
    requires AllDigits(ds) && ParseNumber.NoDigitFirst(rest)
    ensures Digits(ds + rest) == |ds|
  {
    if ds == [] {
      assert ds + rest == rest;
    } else {
      DigitsAre(ds[1..], rest);
      assert (ds + rest)[1..] == ds[1..] + rest;
    }
  }

  lemma {:induction false} DigitsFound(t: Bytes)
    ensures AllDigits(t[..Digits(t)]) && ParseNumber.NoDigitFirst(t[Digits(t)..])
  {
    if t != [] && IsDigit(t[0]) {
      var n := Digits(t[1..]);
      DigitsFound(t[1..]);
      assert t[..n + 1] == [t[0]] + t[1..][..n] && t[n + 1..] == t[1..][n..];
    }
  }

  lemma {:induction false} WholeIs(whole: Bytes, rest: Bytes)
    requires AllDigits(whole) && GoodWhole(whole) && (whole != [ZERO] ==> ParseNumber.NoDigitFirst(rest))
    ensures WholeLength(whole + rest) == |whole|
  {
    assert (whole + rest)[0] == whole[0];
    if whole[0] == ZERO {
      assert whole == [ZERO];
    } else {
      DigitsAre(whole, rest);
    }
  }

  lemma {:induction false} FracIs(frac: Option<Bytes>, rest: Bytes)
    requires frac.Some? ==> AllDigits(frac.value) && frac.value != [] && ParseNumber.NoDigitFirst(rest)
    requires frac.None? ==> !StartsWith(rest, DOT)
    ensures FracLength(ParseNumber.FracText(frac) + rest) == Some(|ParseNumber.FracText(frac)|)
  {
    var t := ParseNumber.FracText(frac) + rest;
    if frac.Some? {
      DigitsAre(frac.value, rest);
      assert t[1..] == frac.value + rest;
    } else {
      assert t == rest;
    }
  }

  lemma {:induction false} SignIs(sign: Option<Byte>, rest: Bytes)
    requires (sign.Some? ==> ParseNumber.IsSign(sign.value)) && (rest == [] || !ParseNumber.IsSign(rest[0]))
    ensures SignLength(ParseNumber.SignText(sign) + rest) == |ParseNumber.SignText(sign)|
  {
    assert sign.None? ==> ParseNumber.SignText(sign) + rest == rest;
  }

  lemma {:induction false} Cut(a: Bytes, b: Bytes)
    ensures (a + b)[..|a|] == a && (a + b)[|a|..] == b
  {
  }

  lemma {:induction false} Regroup(a: Bytes, b: Bytes, c: Bytes)
    ensures a + b + c == a + (b + c)
  {
  }

  lemma {:induction false} CutTwice(t: Bytes, i: nat, j: nat)
    requires i + j <= |t|
    ensures t[i..][j..] == t[i + j..] && t[i..][..j] == t[i..i + j]
  {
  }

  lemma {:induction false} ExpIs(exp: Option<ParseNumber.Exponent>, rest: Bytes)
    requires exp.Some? ==> ParseNumber.ValidExponent(exp.value) && ParseNumber.NoDigitFirst(rest)
    requires exp.None? ==> !Mark(rest)
    ensures ExpLength(ParseNumber.ExpText(exp) + rest) == Some(|ParseNumber.ExpText(exp)|)
  {
    if exp.Some? {
      ExpSomeIs(exp.value, rest);
    } else {
      assert ParseNumber.ExpText(exp) + rest == rest;
    }
  }

  lemma {:induction false} ExpSomeIs(e: ParseNumber.Exponent, rest: Bytes)
    requires ParseNumber.ValidExponent(e) && ParseNumber.NoDigitFirst(rest)
    ensures ExpLength(ParseNumber.ExpText(Some(e)) + rest) == Some(|ParseNumber.ExpText(Some(e))|)
  {
    var mark, sign, t := [e.mark], ParseNumber.SignText(e.sign), ParseNumber.ExpText(Some(e)) + rest;
    Regroup(mark + sign, e.digits, rest);
    Regroup(mark, sign, e.digits + rest);
    Cut(mark, sign + (e.digits + rest));
    Cut(mark + sign, e.digits + rest);
    assert (e.digits + rest)[0] == e.digits[0];
    SignIs(e.sign, e.digits + rest);
    DigitsAre(e.digits, rest);
    assert t[0] == e.mark;
  }

  lemma {:induction false} PointNoDigit(frac: Option<Bytes>, exp: Option<ParseNumber.Exponent>, rest: Bytes)
    requires exp.Some? ==> ParseNumber.ValidExponent(exp.value)
    requires frac.None? && exp.None? ==> ParseNumber.NoDigitFirst(rest)
    ensures ParseNumber.NoDigitFirst(ParseNumber.FracText(frac) + (ParseNumber.ExpText(exp) + rest))
  {
    var t := ParseNumber.FracText(frac) + (ParseNumber.ExpText(exp) + rest);
    if frac.Some? {
      assert t[0] == DOT;
    } else if exp.Some? {
      assert t[0] == exp.value.mark;
    } else {
      assert t == rest;
    }
  }

  lemma {:induction false} MarkNoPoint(exp: Option<ParseNumber.Exponent>, rest: Bytes)
    requires exp.Some? ==> ParseNumber.ValidExponent(exp.value)
    ensures var t := ParseNumber.ExpText(exp) + rest;
            if exp.Some? then ParseNumber.NoDigitFirst(t) && !StartsWith(t, DOT) else t == rest
  {
    if exp.Some? {
      assert (ParseNumber.ExpText(exp) + rest)[0] == exp.value.mark;
    }
  }

  /** The text of a number and what follows it, sign by sign. */
  lemma {:induction false} NumberText(l: ParseNumber.Literal, rest: Bytes)
    ensures ParseNumber.TextOf(l) + rest ==
            ParseNumber.SignText(l.sign) +
            (l.whole + (ParseNumber.FracText(l.frac) + (ParseNumber.ExpText(l.exp) + rest)))
    ensures |ParseNumber.TextOf(l)| ==
            |ParseNumber.SignText(l.sign)| + |l.whole| + |ParseNumber.FracText(l.frac)| + |ParseNumber.ExpText(l.exp)|
  {
    var a, b, c, d := ParseNumber.SignText(l.sign), l.whole, ParseNumber.FracText(l.frac), ParseNumber.ExpText(l.exp);
    Regroup(a + b + c, d, rest);
    Regroup(a + b, c, d + rest);
    Regroup(a, b, c + (d + rest));
  }

  lemma {:induction false} SignFirst(l: ParseNumber.Literal, tail: Bytes)
    requires IsNumber(l)
    ensures StartsWith(ParseNumber.SignText(l.sign) + (l.whole + tail), ParseNumber.MINUS) <==> l.sign.Some?
  {
    assert (l.whole + tail)[0] == l.whole[0];
    if l.sign.None? {
      assert ParseNumber.SignText(l.sign) + (l.whole + tail) == l.whole + tail;
    }
  }

  lemma {:induction false} AfterWholeIs(u: Bytes, f: nat, v: Bytes)
    requires FracLength(u) == Some(f) && v == u[f..]
    ensures AfterWholeLength(u) == Plus(f, ExpLength(v))
  {
  }

  lemma {:induction false} AfterWholeAt(t: Bytes, j: nat, k: nat)
    requires j <= k <= |t| && FracLength(t[j..]) == Some(k - j)
    ensures AfterWholeLength(t[j..]) == Plus(k - j, ExpLength(t[k..]))
  {
    CutTwice(t, j, k - j);
    AfterWholeIs(t[j..], k - j, t[k..]);
  }

  lemma {:induction false} AfterSignIs(u: Bytes, w: nat, v: Bytes)
    requires WholeLength(u) == w > 0 && v == u[w..]
    ensures AfterSignLength(u) == Plus(w, AfterWholeLength(v))
  {
  }

  lemma {:induction false} AfterSignAt(t: Bytes, i: nat, j: nat)
    requires i < j <= |t| && WholeLength(t[i..]) == j - i
    ensures AfterSignLength(t[i..]) == Plus(j - i, AfterWholeLength(t[j..]))
  {
    CutTwice(t, i, j - i);
    AfterSignIs(t[i..], j - i, t[j..]);
  }

  lemma {:induction false} AfterWholeEnds(l: ParseNumber.Literal, rest: Bytes)
    requires IsNumber(l) && Ends(l, rest) && l.whole != [ZERO]
    ensures ParseNumber.NoDigitFirst(ParseNumber.FracText(l.frac) + (ParseNumber.ExpText(l.exp) + rest))
  {
    PointNoDigit(l.frac, l.exp, rest);
  }

  /** afterSign, afterWhole and tail are what follows the sign, the digits before the point, and the fraction. */
  lemma {:induction false} PartLengths(l: ParseNumber.Literal, rest: Bytes, afterSign: Bytes, afterWhole: Bytes,
                                       tail: Bytes)
    requires IsNumber(l) && Ends(l, rest)
    requires afterSign == l.whole + afterWhole && afterWhole == ParseNumber.FracText(l.frac) + tail
    requires tail == ParseNumber.ExpText(l.exp) + rest
    ensures WholeLength(afterSign) == |l.whole| && FracLength(afterWhole) == Some(|ParseNumber.FracText(l.frac)|)
    ensures ExpLength(tail) == Some(|ParseNumber.ExpText(l.exp)|)
  {
    if l.whole != [ZERO] {
      AfterWholeEnds(l, rest);
    }
    WholeIs(l.whole, afterWhole);
    MarkNoPoint(l.exp, rest);
    FracIs(l.frac, tail);
    ExpIs(l.exp, rest);
  }

  /** The parts of a number and what follows them. */
  lemma {:induction false} NumberParts(l: ParseNumber.Literal, rest: Bytes) returns (a: Bytes, b: Bytes, c: Bytes)
    ensures c == ParseNumber.ExpText(l.exp) + rest && b == ParseNumber.FracText(l.frac) + c && a == l.whole + b
    ensures ParseNumber.TextOf(l) + rest == ParseNumber.SignText(l.sign) + a
    ensures |ParseNumber.TextOf(l)| ==
            |ParseNumber.SignText(l.sign)| + |l.whole| + |ParseNumber.FracText(l.frac)| + |ParseNumber.ExpText(l.exp)|
  {
    NumberText(l, rest);
    c := ParseNumber.ExpText(l.exp) + rest;
    b := ParseNumber.FracText(l.frac) + c;
    a := l.whole + b;
  }

  lemma {:induction false} LengthOf(a: Bytes, whole: Bytes, b: Bytes, frac: Bytes, c: Bytes, e: nat)
    requires a == whole + b && b == frac + c && whole != []
    requires WholeLength(a) == |whole| && FracLength(b) == Some(|frac|) && ExpLength(c) == Some(e)
    ensures AfterSignLength(a) == Some(|whole| + (|frac| + e))
  {
    var w, f := |whole|, |frac|;
    Cut(whole, b);
    Cut(frac, c);
    AfterWholeIs(b, f, c);
    AfterSignIs(a, w, b);
  }

  /** The length of a number without its sign, from the lengths of its parts. */
  lemma {:induction false} UnsignedLength(l: ParseNumber.Literal, rest: Bytes, a: Bytes, b: Bytes, c: Bytes)
    returns (m: nat)
    requires IsNumber(l) && Ends(l, rest)
    requires c == ParseNumber.ExpText(l.exp) + rest && b == ParseNumber.FracText(l.frac) + c && a == l.whole + b
    ensures AfterSignLength(a) == Some(m)
    ensures m == |l.whole| + (|ParseNumber.FracText(l.frac)| + |ParseNumber.ExpText(l.exp)|)
  {
    var frac, e := ParseNumber.FracText(l.frac), |ParseNumber.ExpText(l.exp)|;
    PartLengths(l, rest, a, b, c);
    LengthOf(a, l.whole, b, frac, c, e);
    m := |l.whole| + (|frac| + e);
  }

  lemma {:induction false} SignedLength(sign: Bytes, a: Bytes, t: Bytes, n: nat)
    requires t == sign + a && |sign| <= n && AfterSignLength(a) == Some(n - |sign|)
    requires sign == if StartsWith(t, ParseNumber.MINUS) then [t[0]] else []
    ensures NumberLength(t) == Some(n)
  {
    Cut(sign, a);
    assert t[0..] == t;
  }

  lemma {:induction false} SignPart(l: ParseNumber.Literal, tail: Bytes, t: Bytes)
    requires IsNumber(l) && t == ParseNumber.SignText(l.sign) + (l.whole + tail)
    ensures ParseNumber.SignText(l.sign) == if StartsWith(t, ParseNumber.MINUS) then [t[0]] else []
  {
    SignFirst(l, tail);
  }

  /** What follows the sign of a number, and the length of the number in it. */
  lemma {:induction false} Unsigned(l: ParseNumber.Literal, rest: Bytes, t: Bytes)
    returns (sign: Bytes, a: Bytes, n: nat)
    requires IsNumber(l) && Ends(l, rest) && t == ParseNumber.TextOf(l) + rest
    ensures t == sign + a && sign == if StartsWith(t, ParseNumber.MINUS) then [t[0]] else []
    ensures n == |ParseNumber.TextOf(l)| && |sign| <= n && AfterSignLength(a) == Some(n - |sign|)
  {
    var b, c;
    sign := ParseNumber.SignText(l.sign);
    a, b, c := NumberParts(l, rest);
    var m := UnsignedLength(l, rest, a, b, c);
    SignPart(l, b, t);
    n := |sign| + m;
  }

  /** A number has the length the scan finds. */
  lemma {:induction false} NumberLengthIs(l: ParseNumber.Literal, rest: Bytes, t: Bytes)
    requires IsNumber(l) && Ends(l, rest) && t == ParseNumber.TextOf(l) + rest
    ensures NumberLength(t) == Some(|ParseNumber.TextOf(l)|)
  {
    var sign, a, n := Unsigned(l, rest, t);
    SignedLength(sign, a, t, n);
  }

  lemma {:induction false} WholeFound(t: Bytes)
    requires WholeLength(t) > 0
    ensures var n := WholeLength(t);
            AllDigits(t[..n]) && GoodWhole(t[..n]) && (t[..n] != [ZERO] ==> ParseNumber.NoDigitFirst(t[n..]))
  {
    if StartsWith(t, ZERO) {
      assert t[..1] == [ZERO];
    } else {
      DigitsFound(t);
    }
  }

  lemma {:induction false} FracFound(t: Bytes) returns (frac: Option<Bytes>)
    requires FracLength(t).Some?
    ensures var n := FracLength(t).value;
            && ParseNumber.FracText(frac) == t[..n] && (frac.Some? <==> StartsWith(t, DOT))
            && (frac.Some? ==> AllDigits(frac.value) && frac.value != [] && ParseNumber.NoDigitFirst(t[n..]))
  {
    if !StartsWith(t, DOT) {
      return None;
    }
    var n := Digits(t[1..]);
    DigitsFound(t[1..]);
    CutTwice(t, 1, n);
    frac := Some(t[1..1 + n]);
    assert t[..1 + n] == [DOT] + t[1..1 + n];
  }

  lemma {:induction false} ExpFound(t: Bytes) returns (exp: Option<ParseNumber.Exponent>)
    requires ExpLength(t).Some?
    ensures var n := ExpLength(t).value;
            && ParseNumber.ExpText(exp) == t[..n] && (exp.Some? <==> Mark(t))
            && (exp.Some? ==> ParseNumber.ValidExponent(exp.value) && ParseNumber.NoDigitFirst(t[n..]))
  {
    if !Mark(t) {
      return None;
    }
    var s := 1 + SignLength(t[1..]);
    var n := Digits(t[s..]);
    DigitsFound(t[s..]);
    CutTwice(t, s, n);
    var sign := if s == 2 then Some(t[1]) else None;
    exp := Some(ParseNumber.Exponent(t[0], sign, t[s..s + n]));
    assert t[..s] == [t[0]] + ParseNumber.SignText(sign);
    assert t[..s + n] == t[..s] + t[s..s + n];
  }

  /** The fraction and the exponent of a number, if rest follows them. */
  ghost predicate GoodTail(frac: Option<Bytes>, exp: Option<ParseNumber.Exponent>, rest: Bytes) {
    && (frac.Some? ==> AllDigits(frac.value) && frac.value != [])
    && (exp.Some? ==> ParseNumber.ValidExponent(exp.value))
    && (frac.Some? || exp.Some? ==> ParseNumber.NoDigitFirst(rest))
    && (exp.None? ==> !Mark(rest)) && (exp.None? && frac.None? ==> !StartsWith(rest, DOT))
  }

  lemma {:induction false} TakeSum(t: Bytes, i: nat, j: nat)
    requires i + j <= |t|
    ensures t[..i + j] == t[..i] + t[i..][..j] && t[i + j..] == t[i..][j..]
  {
  }

  lemma {:induction false} TailMade(t: Bytes, f: nat, e: nat, frac: Option<Bytes>, exp: Option<ParseNumber.Exponent>)
    requires f + e <= |t| && ParseNumber.FracText(frac) == t[..f] && ParseNumber.ExpText(exp) == t[f..][..e]
    requires frac.Some? <==> StartsWith(t, DOT)
    requires exp.Some? <==> Mark(t[f..])
    requires frac.Some? ==> AllDigits(frac.value) && frac.value != [] && ParseNumber.NoDigitFirst(t[f..])
    requires exp.Some? ==> ParseNumber.ValidExponent(exp.value) && ParseNumber.NoDigitFirst(t[f..][e..])
    ensures t[..f + e] == ParseNumber.FracText(frac) + ParseNumber.ExpText(exp)
    ensures GoodTail(frac, exp, t[f + e..]) && (frac.None? && exp.None? ==> f == 0 && e == 0)
  {
    TakeSum(t, f, e);
    if exp.None? {
      assert e == |t[f..][..e]| == 0 && t[f..][0..] == t[f..];
    }
    if frac.None? {
      assert f == |t[..f]| == 0 && t[0..] == t;
    }
  }

  lemma {:induction false} AfterWholeLengths(t: Bytes, n: nat) returns (f: nat, e: nat)
    requires AfterWholeLength(t) == Some(n)
    ensures FracLength(t) == Some(f) && f <= |t| && ExpLength(t[f..]) == Some(e) && n == f + e <= |t|
  {
    f := FracLength(t).value;
    e := n - f;
  }

  lemma {:induction false} AfterWholeFound(t: Bytes, n: nat)
    returns (frac: Option<Bytes>, exp: Option<ParseNumber.Exponent>)
    requires AfterWholeLength(t) == Some(n)
    ensures n <= |t| && t[..n] == ParseNumber.FracText(frac) + ParseNumber.ExpText(exp) && GoodTail(frac, exp, t[n..])
    ensures frac.None? && exp.None? ==> n == 0
  {
    var f, e := AfterWholeLengths(t, n);
    frac := FracFound(t);
    exp := ExpFound(t[f..]);
    TailMade(t, f, e, frac, exp);
  }

  lemma {:induction false} NumberMade(t: Bytes, w: nat, m: nat, l: ParseNumber.Literal)
    requires w + m <= |t| && l.sign == None && l.whole == t[..w] && AllDigits(l.whole) && GoodWhole(l.whole)
    requires t[w..][..m] == ParseNumber.FracText(l.frac) + ParseNumber.ExpText(l.exp)
    requires GoodTail(l.frac, l.exp, t[w..][m..])
    requires l.frac.None? && l.exp.None? ==> m == 0 && (l.whole != [ZERO] ==> ParseNumber.NoDigitFirst(t[w..]))
    ensures IsNumber(l) && t[..w + m] == ParseNumber.TextOf(l) && Ends(l, t[w + m..])
  {
    TakeSum(t, w, m);
    Regroup(t[..w], ParseNumber.FracText(l.frac), ParseNumber.ExpText(l.exp));
    assert [] + t[..w] == t[..w];
  }

  lemma {:induction false} AfterSignFound(t: Bytes, n: nat) returns (l: ParseNumber.Literal)
    requires AfterSignLength(t) == Some(n)
    ensures n <= |t| && l.sign == None && IsNumber(l) && t[..n] == ParseNumber.TextOf(l) && Ends(l, t[n..])
  {
    var w := WholeLength(t);
    WholeFound(t);
    var frac, exp := AfterWholeFound(t[w..], n - w);
    l := ParseNumber.Literal(None, t[..w], frac, exp);
    NumberMade(t, w, n - w, l);
  }

  lemma {:induction false} SignedText(minus: Byte, l: ParseNumber.Literal)
    requires l.sign == None
    ensures ParseNumber.TextOf(l.(sign := Some(minus))) == [minus] + ParseNumber.TextOf(l)
  {
    var a, b, c := l.whole, ParseNumber.FracText(l.frac), ParseNumber.ExpText(l.exp);
    assert [] + a == a;
    Regroup([minus] + a, b, c);
    Regroup([minus], a, b + c);
    Regroup(a, b, c);
  }

  lemma {:induction false} SignedNumber(t: Bytes, n: nat, l: ParseNumber.Literal)
    requires StartsWith(t, ParseNumber.MINUS) && NumberAt(t[1..], n, l) && l.sign == None
    ensures NumberAt(t, n + 1, l.(sign := Some(t[0])))
  {
    SignedText(t[0], l);
    TakeSum(t, 1, n);
    assert t[..1] == [t[0]];
  }

  /** What the scan finds is a number. */
  lemma {:induction false} NumberFound(t: Bytes) returns (l: ParseNumber.Literal)
    requires NumberLength(t).Some?
    ensures NumberAt(t, NumberLength(t).value, l)
  {
    var n := NumberLength(t).value;
    if StartsWith(t, ParseNumber.MINUS) {
      var m := AfterSignFound(t[1..], n - 1);
      SignedNumber(t, n - 1, m);
      l := m.(sign := Some(t[0]));
    } else {
      l := AfterSignFound(t, n);
    }
  }

  /** At most one number starts t, and the scan finds its length. */
  lemma {:induction false} NumberUnique(t: Bytes, n: nat, l: ParseNumber.Literal)
    requires NumberAt(t, n, l)
    ensures NumberLength(t) == Some(n)
  {
    assert t == t[..n] + t[n..];
    NumberLengthIs(l, t[n..], t);
  }

  // ----------------------------------------------------------------- strings

  predicate IsHex(c: Byte) {
    IsDigit(c) || 'a' as int <= c <= 'f' as int || 'A' as int <= c <= 'F' as int
  }

  /** The escapes of one character. */
  predicate IsEscape(c: Byte) {
    c == QUOTE || c == BACKSLASH || c == '/' as int || c == 'b' as int || c == 'f' as int || c == 'n' as int ||
    c == 'r' as int || c == 't' as int
  }

  predicate FourHex(t: Bytes) {
    |t| >= 4 && forall i :: 0 <= i < 4 ==> IsHex(t[i])
  }

  /** The length of the character or escape that starts t, or 0. */
  function ItemLength(t: Bytes): (n: nat)
    ensures n <= |t|
  {
    if t == [] || t[0] == QUOTE || t[0] < ' ' as int then 0
    else if t[0] != BACKSLASH then 1
    else if |t| > 1 && IsEscape(t[1]) then 2
    else if |t| > 1 && t[1] == 'u' as int && FourHex(t[2..]) then 6
    else 0
  }

  /** The bytes of 0 to 9, a to f and A to F. */
  predicate IsHexByte(c: Byte) {
    48 <= c <= 57 || 97 <= c <= 102 || 65 <= c <= 70
  }

  /**
   * One character of a string, which is no control character, quote (34) or
   * backslash (92), or an escape: a backslash and one of " \ / b f n r t, or
   * a backslash, u (117) and four hex digits.
   */
  predicate IsItem(b: Bytes) {
    || (|b| == 1 && b[0] >= 32 && b[0] != 34 && b[0] != 92)
    || (|b| == 2 && b[0] == 92 && b[1] in [34, 92, 47, 98, 102, 110, 114, 116])
    || (|b| == 6 && b[0] == 92 && b[1] == 117 && forall i :: 2 <= i < 6 ==> IsHexByte(b[i]))
  }

  /** The content of a string: characters and escapes. */
  ghost predicate IsContent(b: Bytes)
    decreases |b|
  {
    b == [] || exists n :: 0 < n <= |b| && IsItem(b[..n]) && IsContent(b[n..])
  }

  lemma {:induction false} ItemIs(t: Bytes, n: nat)
    requires 0 < n <= |t|
    ensures IsItem(t[..n]) <==> ItemLength(t) == n
  {
    if n == 6 {
      assert forall i :: 2 <= i < 6 ==> t[..n][i] == t[2..][i - 2];
      assert forall i :: 0 <= i < 4 ==> t[2..][i] == t[..n][i + 2];
    }
  }

  lemma {:induction false} ContentItems(b: Bytes)
    requires b != []
    ensures IsContent(b) <==> ItemLength(b) > 0 && IsContent(b[ItemLength(b)..])
  {
    forall n | 0 < n <= |b| ensures IsItem(b[..n]) <==> ItemLength(b) == n {
      ItemIs(b, n);
    }
  }

  /** The length of the content that starts t, if a quote ends it. */
  function ContentLength(t: Bytes): (n: Option<nat>)
    ensures n.Some? ==> n.value < |t|
  {
    if StartsWith(t, QUOTE) then Some(0)
    else if ItemLength(t) == 0 then None
    else
      Plus(ItemLength(t), ContentLength(t[ItemLength(t)..]))
  }

  lemma {:induction false} ItemOf(b: Bytes, rest: Bytes)
    requires b != [] && ItemLength(b) > 0
    ensures ItemLength(b + rest) == ItemLength(b) && (b + rest)[ItemLength(b)..] == b[ItemLength(b)..] + rest
    ensures (b + rest)[0] != QUOTE
  {
    var t := b + rest;
    assert t[0] == b[0] && (|b| > 1 ==> t[1] == b[1]);
    if ItemLength(b) == 6 {
      assert forall i :: 0 <= i < 4 ==> t[2..][i] == b[2..][i];
    }
  }

  lemma {:induction false} ContentIs(b: Bytes, rest: Bytes)
    requires IsContent(b) && StartsWith(rest, QUOTE)
    ensures ContentLength(b + rest) == Some(|b|)
    decreases |b|
  {
    if b == [] {
      assert b + rest == rest;
    } else {
      ContentItems(b);
      ItemOf(b, rest);
      ContentIs(b[ItemLength(b)..], rest);
    }
  }

  lemma {:induction false} ContentFound(t: Bytes)
    requires ContentLength(t).Some?
    ensures var n := ContentLength(t).value; IsContent(t[..n]) && t[n] == QUOTE
    decreases |t|
  {
    if !StartsWith(t, QUOTE) {
      var k := ItemLength(t);
      var n := ContentLength(t[k..]).value;
      ContentFound(t[k..]);
      ItemInside(t, k + n);
      assert t[..k + n][k..] == t[k..][..n];
      ContentItems(t[..k + n]);
    }
  }

  lemma {:induction false} ItemInside(t: Bytes, n: nat)
    requires 0 < ItemLength(t) <= n <= |t|
    ensures ItemLength(t[..n]) == ItemLength(t)
  {
    if ItemLength(t) == 6 {
      assert forall i :: 0 <= i < 4 ==> t[..n][2..][i] == t[2..][i];
    }
  }

  // ------------------------------------------------------------------ tokens

  function Punctuation(c: Byte): Option<Token> {
    if c == '{' as int then Some(OpenBrace)
    else if c == '}' as int then Some(CloseBrace)
    else if c == '[' as int then Some(OpenBracket)
    else if c == ']' as int then Some(CloseBracket)
    else if c == ',' as int then Some(Comma)
    else if c == ':' as int then Some(Token.Colon)
    else None
  }

  /** The bytes of true and false. */
  predicate IsBoolean(s: Bytes) {
    s == [116, 114, 117, 101] || s == [102, 97, 108, 115, 101]
  }

  /** The first n bytes of u are the token tok. */
  ghost predicate IsToken(decode: Decode, u: Bytes, n: nat, tok: Token) {
    && 0 < n <= |u|
    && match tok
       case OpenBrace => n == 1 && u[0] == 123
       case CloseBrace => n == 1 && u[0] == 125
       case OpenBracket => n == 1 && u[0] == 91
       case CloseBracket => n == 1 && u[0] == 93
       case Comma => n == 1 && u[0] == 44
       case Colon => n == 1 && u[0] == 58
       case Text(s) => n > 1 && u[0] == 34 && IsContent(u[1..n - 1]) && u[n - 1] == 34 && s == decode(u[1..n - 1])
       case Word(s) => s == u[..n] && (IsBoolean(s) || exists l :: NumberAt(u, n, l))
       case NullWord => u[..n] == [110, 117, 108, 108]
  }

  predicate StartsNumber(c: Byte) {
    c == ParseNumber.MINUS || IsDigit(c)
  }

  /** The string at the start of u. */
  function StringAt(decode: Decode, u: Bytes): (r: Option<(Token, nat)>)
    requires u != []
    ensures r.Some? ==> 0 < r.value.1 <= |u|
  {
    match ContentLength(u[1..])
    case None => None
    case Some(n) => Some((Text(decode(u[1..n + 1])), n + 2))
  }

  function LiteralAt(u: Bytes, word: Bytes, tok: Token): (r: Option<(Token, nat)>)
    requires word != []
    ensures r.Some? ==> 0 < r.value.1 <= |u|
  {
    if word <= u then Some((tok, |word|)) else None
  }

  function WordOf(u: Bytes, n: Option<nat>): (r: Option<(Token, nat)>)
    requires n.Some? ==> n.value <= |u|
    ensures r.Some? ==> 0 < r.value.1 <= |u|
  {
    if n.None? || n.value == 0 then None else Some((Word(u[..n.value]), n.value))
  }

  function WordAt(u: Bytes): (r: Option<(Token, nat)>)
    ensures r.Some? ==> 0 < r.value.1 <= |u|
  {
    WordOf(u, NumberLength(u))
  }

  /** The token at the start of u, if it always has the same text. */
  function FixedAt(u: Bytes): (r: Option<(Token, nat)>)
    requires u != []
    ensures r.Some? ==> 0 < r.value.1 <= |u|
  {
    if Punctuation(u[0]).Some? then Some((Punctuation(u[0]).value, 1))
    else if u[0] == 't' as int then LiteralAt(u, Rules.TRUE, Word(Rules.TRUE))
    else if u[0] == 'f' as int then LiteralAt(u, Rules.FALSE, Word(Rules.FALSE))
    else if u[0] == 'n' as int then LiteralAt(u, NULL, NullWord)
    else None
  }

  /** The token at the start of u and its length. */
  function TokenAt(decode: Decode, u: Bytes): (r: Option<(Token, nat)>)
    ensures r.Some? ==> 0 < r.value.1 <= |u|
  {
    if u == [] then None
    else if StartsNumber(u[0]) then WordAt(u)
    else if u[0] == QUOTE then StringAt(decode, u)
    else FixedAt(u)
  }

  lemma {:induction false} StringIs(decode: Decode, u: Bytes, n: nat, s: Bytes)
    requires u != [] && u[0] == QUOTE
    ensures IsToken(decode, u, n, Text(s)) <==> StringAt(decode, u) == Some((Text(s), n))
  {
    if IsToken(decode, u, n, Text(s)) {
      var b, rest := u[1..n - 1], u[n - 1..];
      assert u[1..] == b + rest && rest[0] == u[n - 1];
      ContentIs(b, rest);
    }
    if StringAt(decode, u) == Some((Text(s), n)) {
      ContentFound(u[1..]);
      assert u[1..][..n - 2] == u[1..n - 1] && u[1..][n - 2] == u[n - 1];
    }
  }

  lemma {:induction false} NumberStarts(u: Bytes, n: nat, l: ParseNumber.Literal)
    requires NumberAt(u, n, l)
    ensures n > 0 && u != [] && StartsNumber(u[0])
  {
    var tail := ParseNumber.FracText(l.frac) + ParseNumber.ExpText(l.exp);
    SignFirst(l, tail);
    Regroup(ParseNumber.SignText(l.sign), l.whole, ParseNumber.FracText(l.frac));
    NumberText(l, []);
    assert u[..n] == ParseNumber.TextOf(l) && u[..n][0] == if l.sign.Some? then l.sign.value else l.whole[0];
    assert u[0] == u[..n][0];
  }

  lemma {:induction false} NumberWord(decode: Decode, u: Bytes, n: nat, s: Bytes)
    requires u != [] && StartsNumber(u[0])
    ensures IsToken(decode, u, n, Word(s)) <==> WordAt(u) == Some((Word(s), n))
  {
    if IsToken(decode, u, n, Word(s)) {
      assert u[0] == u[..n][0];
      var l :| NumberAt(u, n, l);
      NumberUnique(u, n, l);
    }
    if WordAt(u) == Some((Word(s), n)) {
      var l := NumberFound(u);
    }
  }

  lemma {:induction false} LiteralIs(u: Bytes, word: Bytes, n: nat)
    requires word != []
    ensures n <= |u| && u[..n] == word <==> word <= u && n == |word|
  {
  }

  /** A word is true, false or a number, which its first character shows. */
  lemma {:induction false} WordStarts(decode: Decode, u: Bytes, n: nat, s: Bytes)
    requires IsToken(decode, u, n, Word(s)) && !StartsNumber(u[0])
    ensures u[..n] == s && (s == Rules.TRUE || s == Rules.FALSE) && u[0] == s[0]
  {
    if l :| NumberAt(u, n, l) {
      NumberStarts(u, n, l);
    }
    assert u[..n][0] == u[0];
  }

  lemma {:induction false} TokenIsOther(decode: Decode, u: Bytes, n: nat, tok: Token)
    requires u != [] && !tok.Text? && !tok.Word?
    ensures IsToken(decode, u, n, tok) <==> TokenAt(decode, u) == Some((tok, n))
  {
    LiteralIs(u, NULL, n);
    if tok.NullWord? && IsToken(decode, u, n, tok) {
      assert u[..n][0] == u[0];
    }
  }

  lemma {:induction false} LiteralWord(decode: Decode, u: Bytes, n: nat, s: Bytes)
    requires u != [] && !StartsNumber(u[0])
    ensures IsToken(decode, u, n, Word(s)) <==> TokenAt(decode, u) == Some((Word(s), n))
  {
    LiteralIs(u, Rules.TRUE, n);
    LiteralIs(u, Rules.FALSE, n);
    if IsToken(decode, u, n, Word(s)) {
      WordStarts(decode, u, n, s);
    }
  }

  lemma {:induction false} TokenIsWord(decode: Decode, u: Bytes, n: nat, s: Bytes)
    requires u != []
    ensures IsToken(decode, u, n, Word(s)) <==> TokenAt(decode, u) == Some((Word(s), n))
  {
    if StartsNumber(u[0]) {
      NumberWord(decode, u, n, s);
    } else {
      LiteralWord(decode, u, n, s);
    }
  }

  /** u starts with at most one token. */
  lemma {:induction false} TokenIs(decode: Decode, u: Bytes, n: nat, tok: Token)
    ensures IsToken(decode, u, n, tok) <==> TokenAt(decode, u) == Some((tok, n))
  {
    if u != [] {
      match tok
      case Text(s) =>
        if u[0] == QUOTE {
          StringIs(decode, u, n, s);
        }
      case Word(s) => TokenIsWord(decode, u, n, s);
      case _ => TokenIsOther(decode, u, n, tok);
    }
  }

  // -------------------------------------------------------------------- text

  /** The white space at the start of t. */
  function Spaces(t: Bytes): (n: nat)
    ensures n <= |t|
  {
    if t != [] && IsSpace(t[0]) then 1 + Spaces(t[1..]) else 0
  }

  /** A space, tab, line feed or carriage return. */
  predicate IsBlank(c: Byte) {
    c in [32, 9, 10, 13]
  }

  /** The white space at the start of t ends at k. */
  ghost predicate BlankTo(t: Bytes, k: nat) {
    k <= |t| && (forall i :: 0 <= i < k ==> IsBlank(t[i])) && (k < |t| ==> !IsBlank(t[k]))
  }

  /** t is the text of these tokens, with white space around them. */
  ghost predicate Spells(decode: Decode, t: Bytes, toks: seq<Token>)
    decreases |toks|
  {
    exists k: nat :: BlankTo(t, k) && SpellsAt(decode, t[k..], toks)
  }

  /** u is this text without white space in front. */
  ghost predicate SpellsAt(decode: Decode, u: Bytes, toks: seq<Token>)
    decreases |toks|, 0
  {
    if toks == [] then u == []
    else exists n: nat :: n <= |u| && IsToken(decode, u, n, toks[0]) && Spells(decode, u[n..], toks[1..])
  }

  lemma {:induction false} SpacesAre(t: Bytes, k: nat)
    ensures BlankTo(t, k) <==> k == Spaces(t)
  {
    if t != [] && IsSpace(t[0]) {
      if k > 0 {
        SpacesAre(t[1..], k - 1);
        assert forall i :: 0 < i < |t| ==> t[i] == t[1..][i - 1];
        assert k <= |t| ==> forall i :: 0 <= i < k - 1 ==> t[1..][i] == t[i + 1];
      }
    }
  }

  /** t is the text of an object with no more than 10000 objects and arrays inside each other. */
  ghost predicate IsObjectText(decode: Decode, t: Bytes, members: seq<Member>) {
    Spells(decode, t, Print(JObject(members))) && Depth(JObject(members)) <= 10000
  }

  /** Some way to find the token at the start of a text, and its length. */
  type Scan = Bytes -> Option<(Token, nat)>

  ghost predicate GoodScan(scan: Scan) {
    && scan([]) == None && forall u :: scan(u).Some? ==> 0 < scan(u).value.1 <= |u|
  }

  /** The same as Spells, read with scan. */
  ghost predicate ScansAs(scan: Scan, t: Bytes, toks: seq<Token>)
    decreases |toks|
  {
    var u := t[Spaces(t)..];
    if toks == [] then u == []
    else
      && scan(u).Some? && scan(u).value.0 == toks[0] && scan(u).value.1 <= |u|
      && ScansAs(scan, u[scan(u).value.1..], toks[1..])
  }

  lemma {:induction false} SpellsIsScan(decode: Decode, t: Bytes, toks: seq<Token>)
    ensures Spells(decode, t, toks) <==> ScansAs(u => TokenAt(decode, u), t, toks)
    decreases |toks|
  {
    forall k: nat ensures BlankTo(t, k) <==> k == Spaces(t) {
      SpacesAre(t, k);
    }
    if toks != [] {
      var u := t[Spaces(t)..];
      forall n: nat | n <= |u|
        ensures IsToken(decode, u, n, toks[0]) <==> TokenAt(decode, u) == Some((toks[0], n))
        ensures Spells(decode, u[n..], toks[1..]) <==> ScansAs(u => TokenAt(decode, u), u[n..], toks[1..])
      {
        TokenIs(decode, u, n, toks[0]);
        SpellsIsScan(decode, u[n..], toks[1..]);
      }
      if TokenAt(decode, u).Some? && TokenAt(decode, u).value.0 == toks[0] {
        assert IsToken(decode, u, TokenAt(decode, u).value.1, toks[0]);
      }
    }
  }

  // ----------------------------------------------------------------- reading

  lemma {:induction false} SliceNext(d: Bytes, pos: nat)
    requires pos < |d|
    ensures d[pos..] == [d[pos]] + d[pos + 1..] && d[pos..][0] == d[pos] && d[pos..][1..] == d[pos + 1..]
  {
  }

  /** ws */
  method SkipSpace(d: Bytes, pos: nat) returns (p: nat)
    requires pos <= |d|
    ensures p == pos + Spaces(d[pos..]) && p <= |d|
  {
    p := pos;
    while p < |d|
      invariant pos <= p <= |d| && pos + Spaces(d[pos..]) == p + Spaces(d[p..])
    {
      SliceNext(d, p);
      if !IsSpace(d[p]) {
        return;
      }
      p := p + 1;
    }
  }

  /** digits */
  method SkipDigits(d: Bytes, pos: nat) returns (p: nat)
    requires pos <= |d|
    ensures p == pos + Digits(d[pos..]) && p <= |d|
  {
    p := pos;
    while p < |d|
      invariant pos <= p <= |d| && pos + Digits(d[pos..]) == p + Digits(d[p..])
    {
      SliceNext(d, p);
      if !IsDigit(d[p]) {
        return;
      }
      p := p + 1;
    }
  }

  method ReadFraction(d: Bytes, pos: nat) returns (p: Option<nat>)
    requires pos <= |d|
    ensures p == EndOf(pos, FracLength(d[pos..])) && (p.Some? ==> p.value <= |d|)
  {
    if pos == |d| || d[pos] != DOT {
      return Some(pos);
    }
    SliceNext(d, pos);
    var q := SkipDigits(d, pos + 1);
    return if q == pos + 1 then None else Some(q);
  }

  method ReadExponent(d: Bytes, pos: nat) returns (p: Option<nat>)
    requires pos <= |d|
    ensures p == EndOf(pos, ExpLength(d[pos..])) && (p.Some? ==> p.value <= |d|)
  {
    if pos == |d| || !ParseNumber.IsExponentMark(d[pos]) {
      return Some(pos);
    }
    SliceNext(d, pos);
    var s := pos + 1;
    if s < |d| && ParseNumber.IsSign(d[s]) {
      s := s + 1;
    }
    CutTwice(d, pos, s - pos);
    var q := SkipDigits(d, s);
    return if q == s then None else Some(q);
  }

  method ReadWhole(d: Bytes, pos: nat) returns (p: nat)
    requires pos <= |d|
    ensures p == pos + WholeLength(d[pos..]) && p <= |d|
  {
    if pos < |d| && d[pos] == ZERO {
      return pos + 1;
    }
    p := SkipDigits(d, pos);
  }

  /** Where a part that starts at pos ends. */
  function EndOf(pos: nat, n: Option<nat>): Option<nat> {
    if n.None? then None else Some(pos + n.value)
  }

  method ReadAfterWhole(d: Bytes, pos: nat) returns (p: Option<nat>)
    requires pos <= |d|
    ensures p == EndOf(pos, AfterWholeLength(d[pos..])) && (p.Some? ==> p.value <= |d|)
  {
    p := ReadFraction(d, pos);
    if p.Some? {
      AfterWholeAt(d, pos, p.value);
      p := ReadExponent(d, p.value);
    }
  }

  method ReadAfterSign(d: Bytes, pos: nat) returns (p: Option<nat>)
    requires pos <= |d|
    ensures p == EndOf(pos, AfterSignLength(d[pos..])) && (p.Some? ==> p.value <= |d|)
  {
    var j := ReadWhole(d, pos);
    if j == pos {
      return None;
    }
    AfterSignAt(d, pos, j);
    p := ReadAfterWhole(d, j);
  }

  /** number: the end of the number at pos. */
  method ReadNumber(d: Bytes, pos: nat) returns (p: Option<nat>)
    requires pos <= |d|
    ensures p == EndOf(pos, NumberLength(d[pos..])) && (p.Some? ==> p.value <= |d|)
  {
    if pos < |d| && d[pos] == ParseNumber.MINUS {
      SliceNext(d, pos);
      p := ReadAfterSign(d, pos + 1);
    } else {
      p := ReadAfterSign(d, pos);
    }
  }

  lemma {:induction false} EscapeIs(t: Bytes, hex: nat)
    requires t != [] && t[0] == BACKSLASH && !(|t| > 1 && IsEscape(t[1])) && hex <= 4
    ensures |t| < 6 || t[1] != 'u' as int ==> ItemLength(t) == 0
    ensures |t| >= 6 && hex < 4 && !IsHex(t[2..][hex]) ==> ItemLength(t) == 0
    ensures |t| >= 6 && t[1] == 'u' as int && (forall j :: 0 <= j < 4 ==> IsHex(t[2..][j])) ==> ItemLength(t) == 6
  {
  }

  /** The length of the escape at pos, or 0 if it is none. */
  method ReadEscape(d: Bytes, pos: nat) returns (n: nat)
    requires pos < |d| && d[pos] == BACKSLASH
    ensures n == ItemLength(d[pos..])
  {
    SliceNext(d, pos);
    if pos + 1 < |d| && IsEscape(d[pos + 1]) {
      return 2;
    }
    ghost var t := d[pos..];
    EscapeIs(t, 0);
    if |d| - pos < 6 || d[pos + 1] != 'u' as int {
      return 0;
    }
    for i := 0 to 4
      invariant forall j :: 0 <= j < i ==> IsHex(t[2..][j])
    {
      EscapeIs(t, i);
      assert t[2..][i] == d[pos + 2 + i];
      if !IsHex(d[pos + 2 + i]) {
        return 0;
      }
    }
    return 6;
  }

  /** From pos and from i the content ends at the same quote. */
  ghost predicate SameEnd(d: Bytes, pos: nat, i: nat) {
    pos <= i <= |d| && EndOf(pos, ContentLength(d[pos..])) == EndOf(i, ContentLength(d[i..]))
  }

  lemma {:induction false} ContentNext(t: Bytes, n: nat, u: Bytes)
    requires t != [] && t[0] != QUOTE && n == ItemLength(t) && n > 0 && u == t[n..]
    ensures ContentLength(t) == Plus(n, ContentLength(u))
  {
  }

  lemma {:induction false} NextItem(d: Bytes, pos: nat, i: nat, n: nat)
    requires SameEnd(d, pos, i) && i < |d| && d[i] != QUOTE && n == ItemLength(d[i..]) && n > 0
    ensures SameEnd(d, pos, i + n)
  {
    CutTwice(d, i, n);
    ContentNext(d[i..], n, d[i + n..]);
  }

  /** The length of the character or escape at pos, or 0 if it is none. */
  method ReadItem(d: Bytes, pos: nat) returns (n: nat)
    requires pos < |d| && d[pos] != QUOTE
    ensures n == ItemLength(d[pos..])
  {
    if d[pos] == BACKSLASH {
      n := ReadEscape(d, pos);
    } else {
      n := if d[pos] < ' ' as int then 0 else 1;
    }
  }

  lemma {:induction false} LastItem(d: Bytes, i: nat)
    requires i <= |d|
    ensures i == |d| || (d[i] != QUOTE && ItemLength(d[i..]) == 0) ==> ContentLength(d[i..]).None?
    ensures i < |d| && d[i] == QUOTE ==> ContentLength(d[i..]) == Some(0)
  {
  }

  lemma {:induction false} EndsHere(d: Bytes, pos: nat, i: nat)
    requires SameEnd(d, pos, i)
    ensures i == |d| || (d[i] != QUOTE && ItemLength(d[i..]) == 0) ==> EndOf(pos, ContentLength(d[pos..])) == None
    ensures i < |d| && d[i] == QUOTE ==> EndOf(pos, ContentLength(d[pos..])) == Some(i)
  {
    LastItem(d, i);
  }

  /** decodeStr: the end of the content at pos, where the quote is. */
  method ReadContent(d: Bytes, pos: nat) returns (p: Option<nat>)
    requires pos <= |d|
    ensures p == EndOf(pos, ContentLength(d[pos..])) && (p.Some? ==> p.value < |d|)
  {
    var i := pos;
    while i < |d|
      invariant SameEnd(d, pos, i)
    {
      EndsHere(d, pos, i);
      if d[i] == QUOTE {
        return Some(i);
      }
      var n := ReadItem(d, i);
      if n == 0 {
        return None;
      }
      NextItem(d, pos, i, n);
      i := i + n;
    }
    EndsHere(d, pos, i);
    return None;
  }

  /** The end of a token instead of its length. */
  function Shifted(r: Option<(Token, nat)>, pos: nat): Option<(Token, nat)> {
    match r
    case None => None
    case Some((tok, n)) => Some((tok, pos + n))
  }

  method ReadString(decode: Decode, d: Bytes, pos: nat) returns (r: Option<(Token, nat)>)
    requires pos < |d| && d[pos] == QUOTE
    ensures r == Shifted(StringAt(decode, d[pos..]), pos)
  {
    SliceNext(d, pos);
    var p := ReadContent(d, pos + 1);
    if p.None? {
      return None;
    }
    assert d[pos..][1..p.value - pos] == d[pos + 1..p.value];
    return Some((Text(decode(d[pos + 1..p.value])), p.value + 1));
  }

  /** The word from pos to p. */
  function WordTo(d: Bytes, pos: nat, p: Option<nat>): Option<(Token, nat)>
    requires pos <= |d| && (p.Some? ==> pos <= p.value <= |d|)
  {
    if p.None? || p.value == pos then None else Some((Word(d[pos..p.value]), p.value))
  }

  lemma {:induction false} WordToIs(d: Bytes, pos: nat, u: Bytes, n: Option<nat>)
    requires pos <= |d| && u == d[pos..] && (n.Some? ==> n.value <= |u|)
    ensures Shifted(WordOf(u, n), pos) == WordTo(d, pos, EndOf(pos, n))
  {
    if n.Some? {
      assert u[..n.value] == d[pos..pos + n.value];
    }
  }

  method ReadWord(d: Bytes, pos: nat) returns (r: Option<(Token, nat)>)
    requires pos < |d|
    ensures r == Shifted(WordAt(d[pos..]), pos)
  {
    var p := ReadNumber(d, pos);
    WordToIs(d, pos, d[pos..], NumberLength(d[pos..]));
    r := WordTo(d, pos, p);
  }

  /** literal */
  method ReadLiteral(d: Bytes, pos: nat, word: Bytes, tok: Token) returns (r: Option<(Token, nat)>)
    requires pos <= |d| && word != []
    ensures r == Shifted(LiteralAt(d[pos..], word, tok), pos)
  {
    if |d| - pos < |word| {
      return None;
    }
    assert d[pos..][..|word|] == d[pos..pos + |word|];
    return if d[pos..pos + |word|] == word then Some((tok, pos + |word|)) else None;
  }

  method ReadFixed(d: Bytes, pos: nat) returns (r: Option<(Token, nat)>)
    requires pos < |d|
    ensures r == Shifted(FixedAt(d[pos..]), pos)
  {
    var c := d[pos];
    if Punctuation(c).Some? {
      return Some((Punctuation(c).value, pos + 1));
    } else if c == 't' as int {
      r := ReadLiteral(d, pos, Rules.TRUE, Word(Rules.TRUE));
    } else if c == 'f' as int {
      r := ReadLiteral(d, pos, Rules.FALSE, Word(Rules.FALSE));
    } else if c == 'n' as int {
      r := ReadLiteral(d, pos, NULL, NullWord);
    } else {
      r := None;
    }
  }

  /** The token at pos, and its end. */
  method ReadToken(decode: Decode, d: Bytes, pos: nat) returns (r: Option<(Token, nat)>)
    requires pos < |d|
    ensures r == Shifted(TokenAt(decode, d[pos..]), pos)
  {
    var c := d[pos];
    if StartsNumber(c) {
      r := ReadWord(d, pos);
    } else if c == QUOTE {
      r := ReadString(decode, d, pos);
    } else {
      r := ReadFixed(d, pos);
    }
  }

  /** The tokens ts are those read so far, and rest is read as the others. */
  ghost predicate ScansAfter(scan: Scan, rest: Bytes, toks: seq<Token>, ts: seq<Token>) {
    toks <= ts && ScansAs(scan, rest, ts[|toks|..])
  }

  /** What is left to read are the tokens after toks. */
  ghost predicate ReadSoFar(scan: Scan, d: Bytes, pos: nat, toks: seq<Token>) {
    pos <= |d| && forall ts :: ScansAs(scan, d, ts) <==> ScansAfter(scan, d[pos..], toks, ts)
  }

  lemma {:induction false} PrefixNext(toks: seq<Token>, ts: seq<Token>, tok: Token)
    requires toks <= ts
    ensures toks + [tok] <= ts <==> ts[|toks|..] != [] && ts[|toks|..][0] == tok
    ensures |ts| > |toks| ==> ts[|toks|..][1..] == ts[|toks| + 1..]
  {
    if |ts| > |toks| {
      assert ts[..|toks| + 1] == toks + [ts[|toks|]];
    }
  }

  lemma {:induction false} ScansToken(scan: Scan, t: Bytes, toks: seq<Token>, u: Bytes, tok: Token, n: nat, rest: Bytes)
    requires u == t[Spaces(t)..] && u != [] && scan(u) == Some((tok, n)) && n <= |u| && rest == u[n..]
    ensures ScansAs(scan, t, toks) <==> toks != [] && toks[0] == tok && ScansAs(scan, rest, toks[1..])
  {
  }

  /** One more token, for the tokens ts. */
  lemma {:induction false} ReadOne(scan: Scan, rest: Bytes, toks: seq<Token>, u: Bytes, tok: Token, n: nat, next: Bytes,
                                   ts: seq<Token>)
    requires u == rest[Spaces(rest)..] && u != [] && scan(u) == Some((tok, n)) && n <= |u| && next == u[n..]
    ensures ScansAfter(scan, rest, toks, ts) <==> ScansAfter(scan, next, toks + [tok], ts)
  {
    if toks <= ts {
      ScansToken(scan, rest, ts[|toks|..], u, tok, n, next);
      PrefixNext(toks, ts, tok);
    }
  }

  lemma {:induction false} ReadNext(scan: Scan, d: Bytes, pos: nat, p: nat, toks: seq<Token>, tok: Token, end: nat)
    requires ReadSoFar(scan, d, pos, toks) && p == pos + Spaces(d[pos..]) && p < end <= |d|
    requires scan(d[p..]) == Some((tok, end - p))
    ensures ReadSoFar(scan, d, end, toks + [tok])
  {
    CutTwice(d, pos, p - pos);
    CutTwice(d, p, end - p);
    forall ts ensures ScansAs(scan, d, ts) <==> ScansAfter(scan, d[end..], toks + [tok], ts) {
      ReadOne(scan, d[pos..], toks, d[p..], tok, end - p, d[end..], ts);
    }
  }

  lemma {:induction false} ReadAll(scan: Scan, d: Bytes, pos: nat, toks: seq<Token>)
    requires GoodScan(scan) && ReadSoFar(scan, d, pos, toks) && pos + Spaces(d[pos..]) == |d|
    ensures forall ts :: ScansAs(scan, d, ts) <==> ts == toks
  {
    CutTwice(d, pos, Spaces(d[pos..]));
    forall ts ensures ScansAs(scan, d, ts) <==> ts == toks {
      if toks <= ts {
        assert ts == toks + ts[|toks|..];
      }
    }
  }

  lemma {:induction false} ReadNone(scan: Scan, d: Bytes, pos: nat, p: nat, toks: seq<Token>)
    requires ReadSoFar(scan, d, pos, toks) && p == pos + Spaces(d[pos..]) && p < |d| && scan(d[p..]).None?
    ensures forall ts :: !ScansAs(scan, d, ts)
  {
    CutTwice(d, pos, p - pos);
    forall ts ensures !ScansAs(scan, d, ts) {
    }
  }

  lemma {:induction false} ReadNothing(scan: Scan, d: Bytes)
    ensures ReadSoFar(scan, d, 0, [])
  {
    assert d[0..] == d;
    forall ts: seq<Token> ensures ScansAs(scan, d, ts) <==> ScansAfter(scan, d[0..], [], ts) {
      assert ts[0..] == ts;
    }
  }

  /** The tokens of the text d, or None if it is not the text of any. */
  method Lex(decode: Decode, d: Bytes) returns (r: Option<seq<Token>>)
    ensures forall ts :: Spells(decode, d, ts) <==> r == Some(ts)
  {
    ghost var scan: Scan := u => TokenAt(decode, u);
    forall ts ensures Spells(decode, d, ts) <==> ScansAs(scan, d, ts) {
      SpellsIsScan(decode, d, ts);
    }
    r := LexBy(decode, d, scan);
  }

  method LexBy(decode: Decode, d: Bytes, ghost scan: Scan) returns (r: Option<seq<Token>>)
    requires GoodScan(scan) && forall u :: scan(u) == TokenAt(decode, u)
    ensures forall ts :: ScansAs(scan, d, ts) <==> r == Some(ts)
  {
    var pos, toks := 0, [];
    ReadNothing(scan, d);
    while true
      invariant ReadSoFar(scan, d, pos, toks)
      decreases |d| - pos
    {
      var p := SkipSpace(d, pos);
      if p == |d| {
        ReadAll(scan, d, pos, toks);
        return Some(toks);
      }
      var tok := ReadToken(decode, d, p);
      if tok.None? {
        ReadNone(scan, d, pos, p, toks);
        return None;
      }
      ReadNext(scan, d, pos, p, toks, tok.value.0, tok.value.1);
      pos, toks := tok.value.1, toks + [tok.value.0];
    }
  }
}
