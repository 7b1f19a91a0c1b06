/** Decimal text of natural numbers, as strconv.Itoa and strconv.Atoi convert it. */
module Decimal {
  import opened ByteStrings

  const ZERO: Byte := '0' as int
  const NINE: Byte := '9' as int

  predicate IsDigit(c: Byte) {
    ZERO <= c <= NINE
  }

  predicate AllDigits(s: Bytes) {
    forall i :: 0 <= i < |s| ==> IsDigit(s[i])
  }

  /** The number the digits s denote. */
  function Value(s: Bytes): nat
    requires AllDigits(s)
  {
    if s == [] then 0 else 10 * Value(s[..|s| - 1]) + (s[|s| - 1] - ZERO)
  }

  /** Digits are the bytes 48 to 57, and the last one counts once, the others ten times what they count before it. */
  lemma {:induction false} DigitsMean(s: Bytes, c: Byte)
    ensures IsDigit(c) <==> 48 <= c <= 57
    ensures Value([]) == 0
    ensures AllDigits(s) && IsDigit(c) ==> AllDigits(s + [c]) && Value(s + [c]) == 10 * Value(s) + (c - 48)
  {
    assert (s + [c])[..|s|] == s;
  }

  function Itoa(n: nat): (s: Bytes)
    ensures s != [] && AllDigits(s)
  {
    (if n < 10 then [] else Itoa(n / 10)) + [ZERO + n % 10]
  }

  function Atoi(s: Bytes): Option<int> {
    if s == [] then None
    else
      var signed := s[0] == '+' as int || s[0] == '-' as int;
      var digits := if signed then s[1..] else s;
      if digits == [] || !AllDigits(digits) then None
      else
        var n: int := Value(digits);
        Some(if s[0] == '-' as int then -n else n)
  }

  lemma {:induction false} ValueItoa(n: nat)
    ensures Value(Itoa(n)) == n
  {
    var s := Itoa(n);
    if n >= 10 {
      ValueItoa(n / 10);
      assert s[..|s| - 1] == Itoa(n / 10);
    } else {
      assert s[..|s| - 1] == [];
    }
  }

  /** Atoi undoes Itoa, and accepts a sign (43 or 45) in front. */
  lemma {:induction false} AtoiItoa(n: nat)
    ensures Atoi(Itoa(n)) == Some(n) && Atoi([43] + Itoa(n)) == Some(n)
    ensures Atoi([45] + Itoa(n)).Some? && Atoi([45] + Itoa(n)).value + n == 0
  {
    ValueItoa(n);
    assert IsDigit(Itoa(n)[0]);
    assert ([43] + Itoa(n))[1..] == Itoa(n) && ([45] + Itoa(n))[1..] == Itoa(n);
  }
}
