/**
 * Wildcard patterns: their meaning, their literal parts, and the greedy
 * matcher of explain.go.
 */
module Glob {
  import opened ByteStrings

  datatype Token = Lit(c: Byte) | Star

  function Cons(t: Token, rest: Option<seq<Token>>): Option<seq<Token>> {
    match rest
    case None => None
    case Some(ts) => Some([t] + ts)
  }

  /** The length of the token at the start of v, or 0 if it is an invalid escape. */
  function HeadLength(v: Bytes): (n: nat)
    requires v != []
    ensures n <= |v| && n <= 2
  {
    if v[0] != BACKSLASH then 1
    else if |v| < 2 || (v[1] != STAR && v[1] != BACKSLASH) then 0
    else 2
  }

  /** The tokens of a pattern with escapes, or None if an escape is invalid. */
  function Tokens(v: Bytes): Option<seq<Token>> {
    if v == [] then Some([])
    else
      var n := HeadLength(v);
      if n == 0 then None
      else Cons(if v[0] == STAR then Star else Lit(v[n - 1]), Tokens(v[n..]))
  }

  /** The meaning of a pattern: '*' stands for any sequence of bytes. */
  ghost predicate Accepts(ts: seq<Token>, s: Bytes)
    decreases |ts|
  {
    if ts == [] then s == []
    else
      var init := ts[..|ts| - 1];
      match ts[|ts| - 1]
      case Lit(c) => s != [] && s[|s| - 1] == c && Accepts(init, s[..|s| - 1])
      case Star => exists k :: 0 <= k <= |s| && Accepts(init, s[..k])
  }

  function Concat(a: seq<Token>, b: Option<seq<Token>>): Option<seq<Token>> {
    match b
    case None => None
    case Some(ts) => Some(a + ts)
  }

  lemma {:induction false} ConsConcat(t: Token, a: seq<Token>, b: Option<seq<Token>>)
    ensures Concat([], b) == b
    ensures Cons(t, Concat(a, b)) == Concat([t] + a, b)
  {
    if b.Some? {
      assert [] + b.value == b.value;
      assert [t] + (a + b.value) == [t] + a + b.value;
    }
  }

  lemma {:induction false} TokensAppend(u: Bytes, v: Bytes)
    requires Tokens(u).Some?
    ensures Tokens(u + v) == Concat(Tokens(u).value, Tokens(v))
    decreases |u|
  {
    if u == [] {
      assert u + v == v;
      ConsConcat(Star, [], Tokens(v));
    } else {
      var n := HeadLength(u);
      assert HeadLength(u + v) == n;
      assert (u + v)[n..] == u[n..] + v;
      TokensAppend(u[n..], v);
      ConsConcat(if u[0] == STAR then Star else Lit(u[n - 1]), Tokens(u[n..]).value, Tokens(v));
    }
  }

  lemma {:induction false} SingleToken(v: Bytes)
    requires |v| == 1 || (|v| == 2 && v[0] == BACKSLASH && (v[1] == STAR || v[1] == BACKSLASH))
    requires |v| == 1 ==> v[0] != BACKSLASH
    ensures Tokens(v) == Some([if v == [STAR] then Star else Lit(v[|v| - 1])])
  {
    assert v[|v|..] == [];
    assert Tokens(v[|v|..]) == Some([]);
    var t := if v == [STAR] then Star else Lit(v[|v| - 1]);
    assert Tokens(v) == Cons(t, Tokens(v[|v|..]));
    assert [t] + [] == [t];
  }

  // ---------------------------------------------------------------- parts

  /** The literal parts between the stars, with escapes resolved. */
  function PartsOf(ts: seq<Token>): (parts: seq<Bytes>)
    ensures |parts| > 0
  {
    if ts == [] then [[]]
    else
      var parts := PartsOf(ts[..|ts| - 1]);
      match ts[|ts| - 1]
      case Star => parts + [[]]
      case Lit(c) => parts[..|parts| - 1] + [parts[|parts| - 1] + [c]]
  }

  predicate HasEmptyMiddle(parts: seq<Bytes>) {
    |parts| > 2 && [] in parts[1..|parts| - 1]
  }

  /** What splitWildcard returns: the parts, or None if the pattern is invalid. */
  function Split(v: Bytes): Option<seq<Bytes>> {
    match Tokens(v)
    case None => None
    case Some(ts) => if HasEmptyMiddle(PartsOf(ts)) then None else Some(PartsOf(ts))
  }

  predicate ValidPattern(v: Bytes) {
    Split(v).Some?
  }

  predicate Occurs(s: Bytes, p: Bytes, i: int) {
    0 <= i <= |s| - |p| && s[i..i + |p|] == p
  }

  /** Some way to distribute s[..hi] over the stars makes parts[..n] fit it. */
  ghost predicate FitsTo(parts: seq<Bytes>, n: nat, s: Bytes, hi: int)
    requires 0 < n <= |parts| && hi <= |s|
    decreases n, 0
  {
    var last := parts[n - 1];
    if n == 1 then hi == |last| && Occurs(s, last, 0)
    else Occurs(s, last, hi - |last|) && FitsSome(parts, n - 1, s, hi - |last|)
  }

  ghost predicate FitsSome(parts: seq<Bytes>, n: nat, s: Bytes, hi: int)
    requires 0 < n <= |parts| && hi <= |s|
    decreases n, 1
  {
    exists k :: 0 <= k <= hi && FitsTo(parts, n, s, k)
  }

  ghost predicate Fits(parts: seq<Bytes>, s: Bytes)
    requires |parts| > 0
  {
    FitsTo(parts, |parts|, s, |s|)
  }

  lemma {:induction false} FitsAt(parts: seq<Bytes>, n: nat, s: Bytes, hi: int) returns (k: nat)
    requires 0 < n <= |parts| && hi <= |s| && FitsSome(parts, n, s, hi)
    ensures k <= hi && FitsTo(parts, n, s, k)
  {
    k :| 0 <= k <= hi && FitsTo(parts, n, s, k);
  }

  lemma {:induction false} OccursFrame(s: Bytes, s': Bytes, hi: nat, p: Bytes, i: int)
    requires hi <= |s| && hi <= |s'| && s[..hi] == s'[..hi]
    requires i + |p| <= hi
    ensures Occurs(s, p, i) <==> Occurs(s', p, i)
  {
    if 0 <= i {
      assert s[i..i + |p|] == s[..hi][i..i + |p|];
      assert s'[i..i + |p|] == s'[..hi][i..i + |p|];
    }
  }

  lemma {:induction false} FitsFrame(parts: seq<Bytes>, parts': seq<Bytes>, n: nat, s: Bytes, s': Bytes, hi: nat)
    requires 0 < n <= |parts| && n <= |parts'| && hi <= |s| && hi <= |s'|
    requires parts[..n] == parts'[..n] && s[..hi] == s'[..hi]
    ensures FitsTo(parts, n, s, hi) <==> FitsTo(parts', n, s', hi)
  {
    var m, last := n - 1, parts[n - 1];
    assert last == parts[..n][m] == parts'[..n][m];
    OccursFrame(s, s', hi, last, hi - |last|);
    if |last| <= hi {
      OccursFrame(s, s', hi, last, 0);
    }
    if n > 1 {
      assert parts[..m] == parts[..n][..m] == parts'[..m];
      forall k | 0 <= k <= hi - |last| ensures FitsTo(parts, m, s, k) <==> FitsTo(parts', m, s', k) {
        assert s[..k] == s[..hi][..k] == s'[..k];
        FitsFrame(parts, parts', m, s, s', k);
      }
      assert FitsSome(parts, m, s, hi - |last|) <==> FitsSome(parts', m, s', hi - |last|);
    }
  }

  lemma {:induction false} OccursLonger(s: Bytes, p: Bytes, c: Byte, i: nat)
    ensures Occurs(s, p + [c], i) <==> Occurs(s, p, i) && i + |p| < |s| && s[i + |p|] == c
  {
    if i + |p| < |s| {
      var w := s[i..i + |p| + 1];
      assert w == s[i..i + |p|] + [s[i + |p|]];
      assert w[..|p|] == s[i..i + |p|] && (p + [c])[..|p|] == p;
      assert w[|p|] == s[i + |p|] && (p + [c])[|p|] == c;
    }
  }

  lemma {:induction false} FitsLiteral(parts: seq<Bytes>, c: Byte, s: Bytes)
    requires |parts| > 0
    ensures Fits(parts[..|parts| - 1] + [parts[|parts| - 1] + [c]], s) <==>
            s != [] && s[|s| - 1] == c && FitsTo(parts, |parts|, s, |s| - 1)
  {
    var n, last := |parts|, parts[|parts| - 1];
    var longer := parts[..n - 1] + [last + [c]];
    var m := n - 1;
    assert |longer| == n && longer[m] == last + [c];
    assert longer[..m] == parts[..m];
    if |s| > |last| {
      OccursLonger(s, last, c, |s| - 1 - |last|);
      if m > 0 {
        assert |s| - |last + [c]| == |s| - 1 - |last|;
        forall k | 0 <= k <= |s| - 1 - |last|
          ensures FitsTo(longer, m, s, k) <==> FitsTo(parts, m, s, k)
        {
          FitsFrame(longer, parts, m, s, s, k);
        }
        assert FitsSome(longer, m, s, |s| - 1 - |last|) <==> FitsSome(parts, m, s, |s| - 1 - |last|);
      }
    }
  }

  lemma {:induction false} FitsStar(parts: seq<Bytes>, s: Bytes)
    requires |parts| > 0
    ensures Fits(parts + [[]], s) <==> FitsSome(parts, |parts|, s, |s|)
  {
    var n, more := |parts|, parts + [[]];
    forall k | 0 <= k <= |s| ensures FitsTo(more, n, s, k) <==> FitsTo(parts, n, s, k) {
      FitsFrame(more, parts, n, s, s, k);
    }
    assert more[n] == [] && Occurs(s, [], |s|);
    assert FitsSome(more, n, s, |s|) <==> FitsSome(parts, n, s, |s|);
  }

  /** A pattern accepts exactly what its parts fit. */
  lemma {:induction false} AcceptsIsFits(ts: seq<Token>, s: Bytes)
    ensures Accepts(ts, s) <==> Fits(PartsOf(ts), s)
    decreases |ts|
  {
    if ts != [] {
      var init := ts[..|ts| - 1];
      var parts := PartsOf(init);
      var n := |parts|;
      forall k | 0 <= k <= |s| ensures Accepts(init, s[..k]) <==> FitsTo(parts, n, s, k) {
        AcceptsIsFits(init, s[..k]);
        FitsFrame(parts, parts, n, s[..k], s, k);
      }
      match ts[|ts| - 1]
      case Lit(c) =>
        FitsLiteral(parts, c, s);
      case Star =>
        FitsStar(parts, s);
    }
  }

  // ------------------------------------------------- the greedy algorithm

  /** strings.Index on s[from..]: the first occurrence of p from there on, or -1. */
  function Index(s: Bytes, p: Bytes, from: nat): (i: int)
    requires from <= |s|
    ensures i == -1 || (from <= i && Occurs(s, p, i))
    ensures forall j :: from <= j && Occurs(s, p, j) ==> 0 <= i <= j
    decreases |s| - from
  {
    if Occurs(s, p, from) then from
    else if from == |s| then -1
    else Index(s, p, from + 1)
  }

  /** parts[a..b] occur in s[lo..hi] in this order, without overlap. */
  ghost predicate InOrder(parts: seq<Bytes>, a: nat, b: nat, s: Bytes, lo: int, hi: int)
    requires a <= b <= |parts|
    decreases b - a
  {
    lo <= hi &&
    (a == b ||
     var c, p := b - 1, parts[b - 1];
     exists i :: lo <= i <= hi - |p| && Occurs(s, p, i) && InOrder(parts, a, c, s, lo, i))
  }

  lemma {:induction false} InOrderOrdered(parts: seq<Bytes>, a: nat, b: nat, s: Bytes, lo: int, hi: int)
    requires a <= b <= |parts| && InOrder(parts, a, b, s, lo, hi)
    ensures lo <= hi
  {
  }

  /** The first part starts s, the last one ends s[..hi], and the others fit between them. */
  ghost predicate Between(parts: seq<Bytes>, n: nat, s: Bytes, hi: int)
    requires 1 < n <= |parts|
  {
    && Occurs(s, parts[0], 0) && Occurs(s, parts[n - 1], hi - |parts[n - 1]|)
    && InOrder(parts, 1, n - 1, s, |parts[0]|, hi - |parts[n - 1]|)
  }

  lemma {:induction false} FitsTwoParts(parts: seq<Bytes>, s: Bytes, hi: nat)
    requires 2 <= |parts| && hi <= |s|
    ensures FitsTo(parts, 2, s, hi) <==> Between(parts, 2, s, hi)
  {
    if Between(parts, 2, s, hi) {
      assert |parts[0]| <= hi - |parts[1]| && FitsTo(parts, 1, s, |parts[0]|);
    }
  }

  /** One way to put the last part but one leaves room for the last. */
  lemma {:induction false} FitsBetween(parts: seq<Bytes>, n: nat, s: Bytes, hi: nat, k: nat)
    requires 2 < n <= |parts| && hi <= |s| && Occurs(s, parts[n - 1], hi - |parts[n - 1]|)
    requires k <= hi - |parts[n - 1]| && Between(parts, n - 1, s, k)
    ensures Between(parts, n, s, hi)
  {
    var p := parts[n - 2];
    var i := k - |p|;
    InOrderOrdered(parts, 1, n - 2, s, |parts[0]|, i);
    assert |parts[0]| <= i <= hi - |parts[n - 1]| - |p| && Occurs(s, p, i);
  }

  lemma {:induction false} BetweenFits(parts: seq<Bytes>, n: nat, s: Bytes, hi: nat) returns (k: nat)
    requires 2 < n <= |parts| && hi <= |s| && Between(parts, n, s, hi)
    ensures k <= hi - |parts[n - 1]| && Between(parts, n - 1, s, k)
  {
    var p, room := parts[n - 2], hi - |parts[n - 1]|;
    var i :| |parts[0]| <= i <= room - |p| && Occurs(s, p, i) && InOrder(parts, 1, n - 2, s, |parts[0]|, i);
    k := i + |p|;
  }

  lemma {:induction false} FitsToBetween(parts: seq<Bytes>, n: nat, s: Bytes, hi: nat)
    requires 1 < n <= |parts| && hi <= |s| && FitsTo(parts, n, s, hi)
    ensures Between(parts, n, s, hi)
    decreases n
  {
    if n == 2 {
      FitsTwoParts(parts, s, hi);
    } else {
      var k := FitsAt(parts, n - 1, s, hi - |parts[n - 1]|);
      FitsToBetween(parts, n - 1, s, k);
      FitsBetween(parts, n, s, hi, k);
    }
  }

  lemma {:induction false} BetweenFitsTo(parts: seq<Bytes>, n: nat, s: Bytes, hi: nat)
    requires 1 < n <= |parts| && hi <= |s| && Between(parts, n, s, hi)
    ensures FitsTo(parts, n, s, hi)
    decreases n
  {
    if n == 2 {
      FitsTwoParts(parts, s, hi);
    } else {
      var k := BetweenFits(parts, n, s, hi);
      BetweenFitsTo(parts, n - 1, s, k);
    }
  }

  /** The first part starts s and the last one ends it, which leaves the others. */
  lemma {:induction false} FitsInOrder(parts: seq<Bytes>, n: nat, s: Bytes, hi: nat)
    requires 1 < n <= |parts| && hi <= |s|
    ensures FitsTo(parts, n, s, hi) <==> Between(parts, n, s, hi)
  {
    if FitsTo(parts, n, s, hi) {
      FitsToBetween(parts, n, s, hi);
    }
    if Between(parts, n, s, hi) {
      BetweenFitsTo(parts, n, s, hi);
    }
  }

  lemma {:induction false} InOrderMonotone(parts: seq<Bytes>, a: nat, b: nat, s: Bytes, lo: int, hi: int, lower: int)
    requires a <= b <= |parts| && lower <= lo && InOrder(parts, a, b, s, lo, hi)
    ensures InOrder(parts, a, b, s, lower, hi)
    decreases b - a
  {
    if a < b {
      var i :| lo <= i <= hi - |parts[b - 1]| && Occurs(s, parts[b - 1], i) && InOrder(parts, a, b - 1, s, lo, i);
      InOrderMonotone(parts, a, b - 1, s, lo, i, lower);
    }
  }

  /** If all parts occur, so does the first, followed by the others. */
  lemma {:induction false} FirstOccurs(parts: seq<Bytes>, a: nat, b: nat, s: Bytes, lo: int, hi: int) returns (i: int)
    requires a < b <= |parts| && InOrder(parts, a, b, s, lo, hi)
    ensures lo <= i && Occurs(s, parts[a], i) && InOrder(parts, a + 1, b, s, i + |parts[a]|, hi)
    decreases b - a
  {
    var p := parts[b - 1];
    i :| lo <= i <= hi - |p| && Occurs(s, p, i) && InOrder(parts, a, b - 1, s, lo, i);
    if a + 1 < b {
      var last := i;
      i := FirstOccurs(parts, a, b - 1, s, lo, last);
      InOrderOrdered(parts, a + 1, b - 1, s, i + |parts[a]|, last);
    }
  }

  lemma {:induction false} PutFirst(parts: seq<Bytes>, a: nat, b: nat, s: Bytes, lo: int, hi: int, i: int)
    requires a < b <= |parts| && lo <= i && Occurs(s, parts[a], i)
    requires InOrder(parts, a + 1, b, s, i + |parts[a]|, hi)
    ensures InOrder(parts, a, b, s, lo, hi)
    decreases b - a
  {
    if a + 1 == b {
      assert InOrder(parts, a, a, s, lo, i);
    } else {
      var p := parts[b - 1];
      var k :| i + |parts[a]| <= k <= hi - |p| && Occurs(s, p, k)
        && InOrder(parts, a + 1, b - 1, s, i + |parts[a]|, k);
      PutFirst(parts, a, b - 1, s, lo, k, i);
    }
  }

  lemma {:induction false} OccursInPrefix(s: Bytes, q: Bytes, hi: nat)
    requires hi <= |s|
    ensures forall k :: k <= hi - |q| ==> (Occurs(s[..hi], q, k) <==> Occurs(s, q, k))
  {
    forall k | k <= hi - |q| ensures Occurs(s[..hi], q, k) <==> Occurs(s, q, k) {
      OccursFrame(s[..hi], s, hi, q, k);
    }
  }

  /** If the parts fit, then the first one also does where it occurs first. */
  lemma {:induction false} FitsLeftmost(parts: seq<Bytes>, a: nat, b: nat, s: Bytes, lo: nat, hi: nat, i: int)
    requires a < b <= |parts| && lo <= hi <= |s| && i == Index(s[..hi], parts[a], lo) && InOrder(parts, a, b, s, lo, hi)
    ensures i >= 0 && InOrder(parts, a + 1, b, s, i + |parts[a]|, hi)
  {
    var q := parts[a];
    OccursInPrefix(s, q, hi);
    var j := FirstOccurs(parts, a, b, s, lo, hi);
    InOrderOrdered(parts, a + 1, b, s, j + |q|, hi);
    assert Occurs(s[..hi], q, j);
    InOrderMonotone(parts, a + 1, b, s, j + |q|, hi, i + |q|);
  }

  lemma {:induction false} LeftmostFits(parts: seq<Bytes>, a: nat, b: nat, s: Bytes, lo: nat, hi: nat, i: int)
    requires a < b <= |parts| && lo <= hi <= |s| && i == Index(s[..hi], parts[a], lo) >= 0
    requires InOrder(parts, a + 1, b, s, i + |parts[a]|, hi)
    ensures InOrder(parts, a, b, s, lo, hi)
  {
    OccursInPrefix(s, parts[a], hi);
    PutFirst(parts, a, b, s, lo, hi, i);
  }

  /** The exchange argument: the leftmost occurrence of a part is as good as any. */
  lemma {:induction false} LeftmostSuffices(parts: seq<Bytes>, a: nat, b: nat, s: Bytes, lo: nat, hi: int)
    requires a < b <= |parts| && lo <= hi <= |s|
    ensures InOrder(parts, a, b, s, lo, hi) <==>
            var i := Index(s[..hi], parts[a], lo); i >= 0 && InOrder(parts, a + 1, b, s, i + |parts[a]|, hi)
  {
    var i := Index(s[..hi], parts[a], lo);
    if InOrder(parts, a, b, s, lo, hi) {
      FitsLeftmost(parts, a, b, s, lo, hi, i);
    }
    if i >= 0 && InOrder(parts, a + 1, b, s, i + |parts[a]|, hi) {
      LeftmostFits(parts, a, b, s, lo, hi, i);
    }
  }

  lemma {:induction false} EndsAndMiddle(parts: seq<Bytes>, s: Bytes)
    requires |parts| > 1
    ensures Fits(parts, s) <==>
            && |s| >= |parts[0]| + |parts[|parts| - 1]|
            && parts[0] <= s && HasSuffix(s, parts[|parts| - 1])
            && InOrder(parts, 1, |parts| - 1, s, |parts[0]|, |s| - |parts[|parts| - 1]|)
  {
    var n, first, last := |parts|, parts[0], parts[|parts| - 1];
    FitsInOrder(parts, n, s, |s|);
    if |s| >= |first| + |last| {
      assert s[0..|first|] == s[..|first|];
      assert s[|s| - |last|..|s|] == s[|s| - |last|..];
    } else {
      assert !InOrder(parts, 1, n - 1, s, |first|, |s| - |last|);
    }
  }

  /** globMatch, the matcher Explain uses, accepts exactly what the pattern means. */
  method GlobMatch(pattern: Bytes, s: Bytes) returns (ok: bool)
    requires ValidPattern(pattern)
    ensures ok <==> Accepts(Tokens(pattern).value, s)
  {
    var split := SplitWildcard(pattern);
    AcceptsIsFits(Tokens(pattern).value, s);
    ok := FitsGreedily(split.value, s);
  }

  method FitsGreedily(parts: seq<Bytes>, s: Bytes) returns (ok: bool)
    requires |parts| > 0
    ensures ok <==> Fits(parts, s)
  {
    var n := |parts|;
    if n == 1 {
      assert |s| == |parts[0]| ==> s[0..|s|] == s;
      return s == parts[0];
    }
    EndsAndMiddle(parts, s);
    var first, last := parts[0], parts[n - 1];
    if |s| < |first| + |last| || !(first <= s) || !HasSuffix(s, last) {
      return false;
    }
    ok := MiddleGreedily(parts, s, |first|, |s| - |last|);
  }

  /** The loop of globMatch over the parts in between; s[lo..hi] is what is left of s. */
  method MiddleGreedily(parts: seq<Bytes>, s: Bytes, from: nat, hi: nat) returns (ok: bool)
    requires |parts| > 1 && from <= hi <= |s|
    ensures ok <==> InOrder(parts, 1, |parts| - 1, s, from, hi)
  {
    var lo := from;
    var end := |parts| - 1;
    for k := 1 to end
      invariant 0 <= lo <= hi
      invariant InOrder(parts, 1, end, s, from, hi) <==> InOrder(parts, k, end, s, lo, hi)
    {
      LeftmostSuffices(parts, k, end, s, lo, hi);
      var i := Index(s[..hi], parts[k], lo);
      if i < 0 {
        return false;
      }
      lo := i + |parts[k]|;
    }
    return true;
  }

  // ------------------------------------------------------------- splitting

  /** strings.Split(v, "*"). */
  function PlainParts(v: Bytes): (parts: seq<Bytes>)
    ensures |parts| > 0
  {
    if v == [] then [[]]
    else
      var parts := PlainParts(v[..|v| - 1]);
      var c := v[|v| - 1];
      if c == STAR then parts + [[]]
      else parts[..|parts| - 1] + [parts[|parts| - 1] + [c]]
  }

  lemma {:induction false} PlainTokens(v: Bytes)
    requires BACKSLASH !in v
    ensures Tokens(v).Some? && PartsOf(Tokens(v).value) == PlainParts(v)
  {
    if v != [] {
      var u, c := v[..|v| - 1], v[|v| - 1];
      assert v == u + [c] && c != BACKSLASH;
      PlainTokens(u);
      TokensAppend(u, [c]);
      SingleToken([c]);
      assert Tokens(v).value[..|Tokens(v).value| - 1] == Tokens(u).value;
    }
  }

  /** The next character or escape of v is the token t. */
  lemma {:induction false} NextIsToken(v: Bytes, i: nat, n: nat, t: Token)
    requires i < |v| && HeadLength(v[i..]) == n > 0 && Tokens(v[..i]).Some?
    requires t == if v[i] == STAR then Star else Lit(v[i + n - 1])
    ensures Tokens(v[..i + n]) == Some(Tokens(v[..i]).value + [t])
  {
    SingleToken(v[i..i + n]);
    TokensSnoc(v[..i], v[i..i + n], t);
    assert v[..i + n] == v[..i] + v[i..i + n];
  }

  lemma {:induction false} SplitStep(v: Bytes, i: nat, parts: seq<Bytes>, b: Bytes)
    requires i < |v| && HeadLength(v[i..]) > 0
    requires Tokens(v[..i]).Some? && PartsOf(Tokens(v[..i]).value) == parts + [b]
    ensures var n := HeadLength(v[i..]);
            && Tokens(v[..i + n]).Some?
            && PartsOf(Tokens(v[..i + n]).value) ==
               if v[i] == STAR then parts + [b] + [[]] else parts + [b + [v[i + n - 1]]]
  {
    var n := HeadLength(v[i..]);
    var t := if v[i] == STAR then Star else Lit(v[i + n - 1]);
    NextIsToken(v, i, n, t);
    PartsSnoc(Tokens(v[..i]).value, t, parts, b);
  }

  lemma {:induction false} TokensSnoc(u: Bytes, head: Bytes, t: Token)
    requires Tokens(u).Some? && Tokens(head) == Some([t])
    ensures Tokens(u + head) == Some(Tokens(u).value + [t])
  {
    TokensAppend(u, head);
  }

  lemma {:induction false} PartsSnoc(ts: seq<Token>, t: Token, parts: seq<Bytes>, b: Bytes)
    requires PartsOf(ts) == parts + [b]
    ensures PartsOf(ts + [t]) == if t.Star? then parts + [b] + [[]] else parts + [b + [t.c]]
  {
    assert (ts + [t])[..|ts|] == ts;
    assert (parts + [b])[..|parts|] == parts;
  }

  lemma {:induction false} SplitInvalid(v: Bytes, i: nat)
    requires i < |v| && Tokens(v[..i]).Some? && HeadLength(v[i..]) == 0
    ensures Tokens(v).None?
  {
    TokensAppend(v[..i], v[i..]);
    assert v[..i] + v[i..] == v;
  }

  /** splitWildcard. Patterns without escapes take the short way. */
  method SplitWildcard(v: Bytes) returns (r: Option<seq<Bytes>>)
    ensures r == Split(v)
  {
    var parts;
    if BACKSLASH !in v {
      PlainTokens(v);
      parts := PlainParts(v);
    } else {
      var ok;
      ok, parts := SplitEscaped(v);
      if !ok {
        return None;
      }
    }
    if HasEmptyMiddle(parts) {
      return None;
    }
    return Some(parts);
  }

  method SplitEscaped(v: Bytes) returns (ok: bool, parts: seq<Bytes>)
    ensures ok <==> Tokens(v).Some?
    ensures ok ==> parts == PartsOf(Tokens(v).value)
  {
    parts := [];
    var b: Bytes := [];
    var i := 0;
    while i < |v|
      invariant i <= |v|
      invariant Tokens(v[..i]).Some?
      invariant PartsOf(Tokens(v[..i]).value) == parts + [b]
    {
      var c := v[i];
      if c == STAR {
        SplitStep(v, i, parts, b);
        parts := parts + [b];
        b := [];
        i := i + 1;
        continue;
      }
      if c == BACKSLASH && (i + 1 == |v| || (v[i + 1] != STAR && v[i + 1] != BACKSLASH)) {
        SplitInvalid(v, i);
        return false, [];
      }
      SplitStep(v, i, parts, b);
      if c == BACKSLASH {
        i := i + 1;
        c := v[i];
      }
      b := b + [c];
      i := i + 1;
    }
    assert v[..i] == v;
    return true, parts + [b];
  }
}
