/** Which rules are valid, said without the compiler, and that normalizeRule accepts exactly these. */
module ValidRules {
  import opened ByteStrings
  import opened Numbers
  import opened Sorting
  import opened Expressions
  import opened Semantics
  import opened Normalize
  import opened NormalizeCorrect
  import opened NormalizeGood
  import Rules
  import Glob
  import GlobTrie
  import Meanings

  // ------------------------------------------------------------- patterns

  /** {"exists": "false"}; the bytes are those of false. */
  predicate IsExistsFalse(p: Rules.Pattern) {
    p.typ == Rules.Exists && p.value == [102, 97, 108, 115, 101]
  }

  ghost predicate FiniteComparison(w: World, p: Rules.Pattern) {
    p.sub == [] && w.parseNumber(p.value).Some? && w.parseNumber(p.value).value.Finite?
  }

  /** The number x compares with the bound of p as p says. */
  ghost predicate Satisfies(w: World, p: Rules.Pattern, x: Num) {
    w.parseNumber(p.value).Some? && Meanings.Compares(p.typ, x, w.parseNumber(p.value).value)
  }

  /** Some real number lies between the two bounds. */
  ghost predicate IsRange(w: World, lower: Rules.Pattern, upper: Rules.Pattern) {
    && lower.typ in {Rules.GreaterThan, Rules.GreaterThanOrEqual} && FiniteComparison(w, lower)
    && upper.typ in {Rules.LessThan, Rules.LessThanOrEqual} && FiniteComparison(w, upper)
    && exists x: real :: Satisfies(w, lower, Finite(x)) && Satisfies(w, upper, Finite(x))
  }

  ghost predicate ValidPattern(w: World, p: Rules.Pattern)
    decreases p
  {
    match p.typ
    case Equals | Prefix | Suffix => p.value != [] && p.sub == []
    case Wildcard => p.value != [] && p.sub == [] && Meanings.GoodEscapes(w.fold(p.value), false)
    case Between => p.value == [] && |p.sub| == 2 && (IsRange(w, p.sub[0], p.sub[1]) || IsRange(w, p.sub[1], p.sub[0]))
    case CIDR => p.sub == [] && w.parsePrefix(p.value).Some?
    case Exists => p.sub == [] && (p.value == [116, 114, 117, 101] || IsExistsFalse(p))
    case AnyOf | AllOf | AnythingBut =>
      && p.value == [] && p.sub != []
      && forall i :: 0 <= i < |p.sub| ==> ValidPattern(w, p.sub[i]) && !IsExistsFalse(p.sub[i])
    case Unknown => false
    case _ => FiniteComparison(w, p)
  }

  lemma {:induction false} EmptyLastPart(ts: seq<Glob.Token>)
    requires var parts := Glob.PartsOf(ts); |parts| > 1 && parts[|parts| - 1] == []
    ensures ts != [] && ts[|ts| - 1].Star?
  {
  }

  /** An empty part in the middle comes from two stars in a row. */
  lemma {:induction false} MiddlesNonempty(ts: seq<Glob.Token>, k: nat)
    requires GlobTrie.NoDoubleStar(ts) && 0 < k < |Glob.PartsOf(ts)| - 1
    ensures Glob.PartsOf(ts)[k] != []
    decreases |ts|
  {
    var init := ts[..|ts| - 1];
    if k < |Glob.PartsOf(init)| - 1 {
      MiddlesNonempty(init, k);
    } else if Glob.PartsOf(init)[k] == [] {
      EmptyLastPart(init);
    }
  }

  lemma {:induction false} NoEmptyMiddle(ts: seq<Glob.Token>)
    requires GlobTrie.NoDoubleStar(ts)
    ensures !Glob.HasEmptyMiddle(Glob.PartsOf(ts))
  {
    var parts := Glob.PartsOf(ts);
    forall k: nat | 0 < k < |parts| - 1 ensures parts[k] != [] {
      MiddlesNonempty(ts, k);
    }
  }

  lemma {:induction false} NoDoubleStarFirst(t: Glob.Token, ts: seq<Glob.Token>)
    ensures GlobTrie.NoDoubleStar([t] + ts) <==>
            GlobTrie.NoDoubleStar(ts) && !(t.Star? && ts != [] && ts[0].Star?)
  {
    var all := [t] + ts;
    assert forall i :: 0 <= i < |ts| ==> ts[i] == all[i + 1];
    if GlobTrie.NoDoubleStar(all) {
      forall i | 0 <= i < |ts| - 1 ensures !(ts[i].Star? && ts[i + 1].Star?) {
        assert ts[i] == all[i + 1] && ts[i + 1] == all[i + 1 + 1];
      }
      assert ts != [] ==> all[0] == t && all[0 + 1] == ts[0];
    }
    if GlobTrie.NoDoubleStar(ts) && !(t.Star? && ts != [] && ts[0].Star?) {
      forall i | 0 <= i < |all| - 1 ensures !(all[i].Star? && all[i + 1].Star?) {
        assert i > 0 ==> all[i] == ts[i - 1] && all[i + 1] == ts[i - 1 + 1];
      }
    }
  }

  lemma {:induction false} EscapesTokens(v: Bytes, afterStar: bool)
    ensures Meanings.GoodEscapes(v, afterStar) <==>
            && Glob.Tokens(v).Some? && GlobTrie.NoDoubleStar(Glob.Tokens(v).value)
            && !(afterStar && Glob.Tokens(v).value != [] && Glob.Tokens(v).value[0].Star?)
    decreases |v|
  {
    if v != [] {
      Meanings.TokensOf(v);
      var n := if v[0] == 92 then 2 else 1;
      if n <= |v| {
        EscapesTokens(v[n..], v[0] == 42);
        if Glob.Tokens(v[n..]).Some? {
          NoDoubleStarFirst(if v[0] == 42 then Glob.Star else Glob.Lit(v[n - 1]), Glob.Tokens(v[n..]).value);
        }
      }
    }
  }

  lemma {:induction false} WildcardValid(v: Bytes)
    ensures NormalizeWildcard(v).Some? <==> Meanings.GoodEscapes(v, false)
  {
    EscapesTokens(v, false);
    if BACKSLASH in v {
      if Meanings.GoodEscapes(v, false) {
        NoEmptyMiddle(Glob.Tokens(v).value);
      } else if Glob.Split(v).Some? {
        NoEmptyMiddleNoDoubleStar(Glob.Tokens(v).value);
      }
    } else if Glob.Index(v, [STAR, STAR], 0) < 0 {
      PlainNoDoubleStar(v);
    } else {
      var i: nat := Glob.Index(v, [STAR, STAR], 0);
      var stars: Bytes := [STAR, STAR];
      assert Glob.Occurs(v, stars, i) && v[i..i + |stars|] == stars;
      assert v[i] == v[i..i + |stars|][0] && v[i + 1] == v[i..i + |stars|][1];
      PlainTokenAt(v, i);
      PlainTokenAt(v, i + 1);
    }
  }

  // --------------------------------------------------------------- between

  const EVERYTHING := Interval(NegInf, PosInf, false, false)

  predicate IsLower(p: Rules.Pattern) {
    p.typ == Rules.GreaterThan || p.typ == Rules.GreaterThanOrEqual
  }

  function IntervalOf(w: World, p: Rules.Pattern): Interval
    requires w.parseNumber(p.value).Some?
  {
    Rules.BoundInterval(p.typ, w.parseNumber(p.value).value)
  }

  function Both(lower: Interval, upper: Interval): Interval {
    Interval(lower.lo, upper.hi, lower.loOpen, upper.hiOpen)
  }

  /** What one more bound makes of the interval. */
  function Narrow(w: World, p: Rules.Pattern, iv: Interval): Interval
    requires Rules.NumericBound(w, p).Some?
  {
    var b := Rules.BoundInterval(p.typ, Rules.NumericBound(w, p).value);
    if IsLower(p) then iv.(lo := b.lo, loOpen := b.loOpen) else iv.(hi := b.hi, hiOpen := b.hiOpen)
  }

  predicate IsBound(w: World, p: Rules.Pattern) {
    Rules.IsComparison(p.typ) && Rules.NumericBound(w, p).Some?
  }

  lemma {:induction false} BetweenStep(w: World, sub: seq<Rules.Pattern>, iv: Interval, lower: bool, upper: bool)
    requires sub != []
    ensures Rules.BetweenBounds(w, sub, iv, lower, upper) ==
            if !IsBound(w, sub[0]) || (if IsLower(sub[0]) then lower else upper) then None
            else
              Rules.BetweenBounds(w, sub[1..], Narrow(w, sub[0], iv),
                                  lower || IsLower(sub[0]), upper || !IsLower(sub[0]))
  {
  }

  lemma {:induction false} BetweenOf(w: World, a: Rules.Pattern, b: Rules.Pattern)
    ensures Rules.BetweenBounds(w, [a, b], EVERYTHING, false, false) ==
            if !IsBound(w, a) || !IsBound(w, b) || IsLower(a) == IsLower(b) then None
            else Some(Narrow(w, b, Narrow(w, a, EVERYTHING)))
  {
    assert [a, b][1..] == [b] && [b][1..] == [];
    BetweenStep(w, [a, b], EVERYTHING, false, false);
    if IsBound(w, a) {
      BetweenStep(w, [b], Narrow(w, a, EVERYTHING), IsLower(a), !IsLower(a));
    }
  }

  /** More or fewer than two bounds are never one of each kind. */
  lemma {:induction false} TwoBounds(w: World, sub: seq<Rules.Pattern>, iv: Interval, lower: bool, upper: bool)
    requires Rules.BetweenBounds(w, sub, iv, lower, upper).Some?
    ensures |sub| == (if lower then 0 else 1) + (if upper then 0 else 1)
    decreases |sub|
  {
    if sub != [] {
      BetweenStep(w, sub, iv, lower, upper);
      TwoBounds(w, sub[1..], Narrow(w, sub[0], iv), lower || IsLower(sub[0]), upper || !IsLower(sub[0]));
    }
  }

  /** Two bounds have a real number between them exactly if the interval between them is not empty. */
  lemma {:induction false} RangeOf(w: World, lower: Rules.Pattern, upper: Rules.Pattern)
    requires IsLower(lower) && Rules.IsComparison(upper.typ) && !IsLower(upper)
    requires FiniteComparison(w, lower) && FiniteComparison(w, upper)
    ensures IsRange(w, lower, upper) <==>
            var iv := Both(IntervalOf(w, lower), IntervalOf(w, upper));
            Less(iv.lo, iv.hi) || (iv.lo == iv.hi && !iv.loOpen && !iv.hiOpen)
  {
    var a, b := w.parseNumber(lower.value).value, w.parseNumber(upper.value).value;
    var middle := (a.r + b.r) / 2.0;
    forall x: real
      ensures Satisfies(w, lower, Finite(x)) <==> x > a.r || (lower.typ == Rules.GreaterThanOrEqual && x == a.r)
      ensures Satisfies(w, upper, Finite(x)) <==> x < b.r || (upper.typ == Rules.LessThanOrEqual && x == b.r)
    {
    }
    if a.r < b.r || (a.r == b.r && lower.typ == Rules.GreaterThanOrEqual && upper.typ == Rules.LessThanOrEqual) {
      assert Satisfies(w, lower, Finite(middle)) && Satisfies(w, upper, Finite(middle));
    }
  }

  lemma {:induction false} BetweenValid(w: World, p: Rules.Pattern)
    requires p.typ == Rules.Between
    ensures Rules.BetweenInterval(w, p).Some? <==> ValidPattern(w, p)
  {
    var sub := p.sub;
    if |sub| == 2 {
      assert sub == [sub[0], sub[1]];
      BetweenOf(w, sub[0], sub[1]);
      if Rules.BetweenBounds(w, sub, EVERYTHING, false, false).Some? {
        if IsLower(sub[0]) {
          RangeOf(w, sub[0], sub[1]);
        } else {
          RangeOf(w, sub[1], sub[0]);
        }
      }
    } else if Rules.BetweenBounds(w, sub, EVERYTHING, false, false).Some? {
      TwoBounds(w, sub, EVERYTHING, false, false);
    }
  }

  /** A valid between pattern matches the values that are numbers which compare with both of its bounds. */
  lemma {:induction false} BetweenMeaning(w: World, p: Rules.Pattern, v: Bytes)
    requires p.typ == Rules.Between && ValidPattern(w, p)
    ensures Rules.ValueMatches(w, p, v) <==>
            && w.parseNumber(v).Some?
            && forall i :: 0 <= i < 2 ==> Satisfies(w, p.sub[i], w.parseNumber(v).value)
  {
    BetweenValid(w, p);
    assert p.sub == [p.sub[0], p.sub[1]];
    BetweenOf(w, p.sub[0], p.sub[1]);
    if w.parseNumber(v).Some? {
      var x := w.parseNumber(v).value;
      Meanings.BoundMeaning(p.sub[0].typ, x, w.parseNumber(p.sub[0].value).value);
      Meanings.BoundMeaning(p.sub[1].typ, x, w.parseNumber(p.sub[1].value).value);
    }
  }

  // ---------------------------------------------------- accepted patterns

  /** normalizePattern accepts exactly the valid patterns. */
  lemma {:induction false} PatternAccepted(w: World, p: Rules.Pattern)
    requires w.Lawful()
    ensures NormalizePattern(w, p).Some? <==> ValidPattern(w, p)
    ensures NormalizePattern(w, p).Some? ==> (NormalizePattern(w, p).value.Absent? <==> IsExistsFalse(p))
    decreases p, 1
  {
    if NormalizePattern(w, p).Some? {
      PatternFaithful(w, p);
    }
    if p.typ == Rules.Wildcard {
      WildcardValid(w.fold(p.value));
    } else if p.typ == Rules.Between {
      BetweenValid(w, p);
    } else if p.typ in {Rules.AnyOf, Rules.AllOf, Rules.AnythingBut} {
      SubsAccepted(w, p.sub);
    }
  }

  lemma {:induction false} SubsAccepted(w: World, ps: seq<Rules.Pattern>)
    requires w.Lawful()
    ensures NormalizeSubs(w, ps).Some? <==>
              forall i :: 0 <= i < |ps| ==> ValidPattern(w, ps[i]) && !IsExistsFalse(ps[i])
    decreases ps, 0
  {
    if ps != [] {
      PatternAccepted(w, ps[0]);
      SubsAccepted(w, ps[1..]);
      assert ps == [ps[0]] + ps[1..];
    }
  }

  // ------------------------------------------------------------ conditions

  ghost predicate ValidCondition(w: World, c: Rules.Condition) {
    c.path != [] && ValidPattern(w, c.pattern)
  }

  /** A property cannot be both absent and anything else. */
  ghost predicate Excludes(a: Rules.Condition, b: Rules.Condition) {
    a.path == b.path && IsExistsFalse(a.pattern)
  }

  ghost predicate ValidPlain(w: World, cs: seq<Rules.Condition>) {
    && cs != []
    && (forall i :: 0 <= i < |cs| ==> ValidCondition(w, cs[i]))
    && (forall i, j :: 0 <= i < |cs| && 0 <= j < |cs| && i != j ==> !Excludes(cs[i], cs[j]))
  }

  lemma {:induction false} EachSome(w: World, cs: seq<Rules.Condition>)
    requires cs != []
    ensures NormalizeEach(w, cs).Some? <==> NormalizeCondition(w, cs[0]).Some? && NormalizeEach(w, cs[1..]).Some?
  {
  }

  ghost predicate AllValidConditions(w: World, cs: seq<Rules.Condition>) {
    forall i :: 0 <= i < |cs| ==> ValidCondition(w, cs[i])
  }

  lemma {:induction false} FirstValid(w: World, cs: seq<Rules.Condition>)
    requires cs != []
    ensures AllValidConditions(w, cs) <==> ValidCondition(w, cs[0]) && AllValidConditions(w, cs[1..])
  {
    assert cs == [cs[0]] + cs[1..];
  }

  lemma {:induction false} EachAccepted(w: World, cs: seq<Rules.Condition>)
    requires w.Lawful()
    ensures NormalizeEach(w, cs).Some? <==> AllValidConditions(w, cs)
  {
    if cs != [] {
      PatternAccepted(w, cs[0].pattern);
      EachSome(w, cs);
      FirstValid(w, cs);
      EachAccepted(w, cs[1..]);
    }
  }

  /** c is on the path of d, and demands its absence if d does. */
  ghost predicate SameDemand(c: NCond, d: Rules.Condition) {
    c.path == d.path && (c.expr.Absent? <==> IsExistsFalse(d.pattern))
  }

  lemma {:induction false} EachDemands(w: World, cs: seq<Rules.Condition>)
    requires w.Lawful() && NormalizeEach(w, cs).Some?
    ensures forall i :: 0 <= i < |cs| ==> SameDemand(NormalizeEach(w, cs).value[i], cs[i])
  {
    if cs != [] {
      PatternAccepted(w, cs[0].pattern);
      EachFirst(w, cs);
      EachDemands(w, cs[1..]);
    }
  }

  ghost predicate Clash(c: NCond, d: NCond) {
    c.path == d.path && c.expr.Absent?
  }

  ghost predicate NoClash(s: seq<NCond>) {
    forall i, j :: 0 <= i < |s| && 0 <= j < |s| && i != j ==> !Clash(s[i], s[j])
  }

  lemma {:induction false} BothIn(s: seq<NCond>, i: nat, j: nat)
    requires i < |s| && j < |s| && i != j
    ensures multiset{s[i], s[j]} <= multiset(s)
  {
    var a, b := if i < j then i else j, if i < j then j else i;
    var middle := s[a + 1..b];
    assert s[a + 1..] == middle + [s[b]] + s[b + 1..];
    assert s == s[..a] + [s[a]] + s[a + 1..];
  }

  lemma {:induction false} BothAt(s: seq<NCond>, c: NCond, d: NCond) returns (i: nat, j: nat)
    requires multiset{c, d} <= multiset(s)
    ensures i < |s| && j < |s| && i != j && s[i] == c && s[j] == d
  {
    assert multiset(s)[c] >= multiset{c, d}[c] > 0 && c in s;
    i :| i < |s| && s[i] == c;
    var rest := s[..i] + s[i + 1..];
    assert s == s[..i] + [s[i]] + s[i + 1..];
    assert multiset(s) == multiset(rest) + multiset{c};
    assert multiset(s)[d] >= multiset{c, d}[d] && d in multiset(rest);
    var k: nat :| k < |rest| && rest[k] == d;
    j := if k < i then k else k + 1;
  }

  lemma {:induction false} NoClashPermuted(s: seq<NCond>, t: seq<NCond>)
    requires multiset(s) == multiset(t) && NoClash(s)
    ensures NoClash(t)
  {
    forall i, j | 0 <= i < |t| && 0 <= j < |t| && i != j ensures !Clash(t[i], t[j]) {
      BothIn(t, i, j);
      var k, l := BothAt(s, t[i], t[j]);
    }
  }

  lemma {:induction false} RunAccepted(run: seq<NCond>)
    requires run != [] && forall i :: 0 <= i < |run| ==> run[i].path == run[0].path
    ensures MergeRun(run).Some? <==> NoClash(run)
  {
    if |run| > 1 && HasAbsent(run) {
      var i :| 0 <= i < |run| && run[i].expr.Absent?;
      assert Clash(run[i], run[if i == 0 then 1 else 0]);
    }
  }

  lemma {:induction false} NoClashSplit(run: seq<NCond>, rest: seq<NCond>)
    requires forall i, j :: 0 <= i < |run| && 0 <= j < |rest| ==> run[i].path != rest[j].path
    ensures NoClash(run + rest) <==> NoClash(run) && NoClash(rest)
  {
    var s, n := run + rest, |run|;
    if NoClash(s) {
      forall i, j | 0 <= i < n && 0 <= j < n && i != j ensures !Clash(run[i], run[j]) {
        assert s[i] == run[i] && s[j] == run[j];
      }
      forall i, j | 0 <= i < |rest| && 0 <= j < |rest| && i != j ensures !Clash(rest[i], rest[j]) {
        assert s[n + i] == rest[i] && s[n + j] == rest[j];
      }
    }
  }

  lemma {:induction false} RunEnds(conds: seq<NCond>)
    requires conds != [] && SortedBy(PathLeq, conds)
    ensures var n := RunLength(conds);
            forall i, j :: 0 <= i < n <= j < |conds| ==> conds[i].path != conds[j].path
  {
    var n := RunLength(conds);
    forall i, j | 0 <= i < n <= j < |conds| ensures conds[i].path != conds[j].path {
      if conds[i].path == conds[j].path {
        assert PathLeq(conds[0], conds[n]) && (n < j ==> PathLeq(conds[n], conds[j]));
        LeqAntisymmetric(conds[0].path, conds[n].path);
      }
    }
  }

  lemma {:induction false} MergeParts(conds: seq<NCond>)
    requires conds != []
    ensures var n := RunLength(conds);
            Merge(conds).Some? <==> MergeRun(conds[..n]).Some? && Merge(conds[n..]).Some?
  {
  }

  lemma {:induction false} RestSorted(conds: seq<NCond>, n: nat)
    requires SortedBy(PathLeq, conds) && n <= |conds|
    ensures SortedBy(PathLeq, conds[n..])
  {
  }

  lemma {:induction false} RunsApart(conds: seq<NCond>)
    requires conds != [] && SortedBy(PathLeq, conds)
    ensures var n := RunLength(conds);
            NoClash(conds) <==> NoClash(conds[..n]) && NoClash(conds[n..])
  {
    var n := RunLength(conds);
    RunEnds(conds);
    NoClashSplit(conds[..n], conds[n..]);
    assert conds == conds[..n] + conds[n..];
  }

  lemma {:induction false} MergeAccepted(conds: seq<NCond>)
    requires SortedBy(PathLeq, conds)
    ensures Merge(conds).Some? <==> NoClash(conds)
    decreases |conds|
  {
    if conds != [] {
      var n := RunLength(conds);
      MergeParts(conds);
      RunsApart(conds);
      RunAccepted(conds[..n]);
      RestSorted(conds, n);
      MergeAccepted(conds[n..]);
    }
  }

  lemma {:induction false} ClashesAgree(cs: seq<Rules.Condition>, conds: seq<NCond>)
    requires |conds| == |cs|
    requires forall i :: 0 <= i < |cs| ==> SameDemand(conds[i], cs[i])
    ensures NoClash(conds) <==> forall i, j :: 0 <= i < |cs| && 0 <= j < |cs| && i != j ==> !Excludes(cs[i], cs[j])
  {
    forall i, j | 0 <= i < |cs| && 0 <= j < |cs| ensures Clash(conds[i], conds[j]) <==> Excludes(cs[i], cs[j]) {
    }
  }

  /** normalizeConditions accepts exactly the valid condition sets. */
  lemma {:induction false} PlainAccepted(w: World, cs: seq<Rules.Condition>)
    requires w.Lawful() && cs != []
    ensures NormalizeConditions(w, cs).Some? <==> ValidPlain(w, cs)
  {
    EachAccepted(w, cs);
    if NormalizeEach(w, cs).Some? {
      var conds := NormalizeEach(w, cs).value;
      var sorted := Sort(PathLeq, conds);
      PathOrder();
      SortCorrect(PathLeq, conds);
      MergeAccepted(sorted);
      if NoClash(conds) {
        NoClashPermuted(conds, sorted);
      } else if NoClash(sorted) {
        NoClashPermuted(sorted, conds);
      }
      EachDemands(w, cs);
      ClashesAgree(cs, conds);
    }
  }

  // ----------------------------------------------------------------- rules

  /** At most one condition of a set has alternatives, some of them, nested no more than depth deep. */
  ghost predicate Structured(rule: Rules.ConditionSet, depth: nat)
    decreases rule
  {
    forall i :: 0 <= i < |rule.conds| && rule.conds[i].or.Or? ==>
      && depth > 0 && rule.conds[i].path == [] && rule.conds[i].pattern == Rules.Pattern(Rules.Equals, [], [], false)
      && (forall k :: 0 <= k < |rule.conds| && k != i ==> rule.conds[k].or.NoOr?)
      && rule.conds[i].or.sets != []
      && (forall j :: 0 <= j < |rule.conds[i].or.sets| ==> Structured(rule.conds[i].or.sets[j], depth - 1))
  }

  predicate NoneOr(cs: seq<Rules.Condition>) {
    forall i :: 0 <= i < |cs| ==> cs[i].or.NoOr?
  }

  /** One alternative of every condition that has some, with all conditions beside it. */
  ghost predicate IsCombination(rule: Rules.ConditionSet, beside: seq<Rules.Condition>, cs: seq<Rules.Condition>)
    decreases rule
  {
    if NoneOr(rule.conds) then cs == rule.conds + beside
    else
      exists i, j ::
        && 0 <= i < |rule.conds| && rule.conds[i].or.Or? && 0 <= j < |rule.conds[i].or.sets|
        && IsCombination(rule.conds[i].or.sets[j], rule.conds[..i] + rule.conds[i + 1..] + beside, cs)
  }

  /** The number of combinations. */
  function Combinations(rule: Rules.ConditionSet): nat
    decreases rule, 0
  {
    var or := FindOr(rule.conds, 0);
    if or < |rule.conds| then CombinationsOf(rule.conds[or].or.sets) else 1
  }

  function CombinationsOf(sets: seq<Rules.ConditionSet>): nat
    decreases sets, 0
  {
    if sets == [] then 0 else Combinations(sets[0]) + CombinationsOf(sets[1..])
  }

  ghost predicate AllValid(w: World, rule: Rules.ConditionSet, beside: seq<Rules.Condition>) {
    forall cs :: IsCombination(rule, beside, cs) ==> ValidPlain(w, cs)
  }

  /** A valid rule is well structured, and each of its combinations, at most 1024, is valid. */
  ghost predicate ValidRule(w: World, rule: Rules.ConditionSet) {
    Structured(rule, 32) && AllValid(w, rule, []) && Combinations(rule) <= 1024
  }

  lemma {:induction false} PlainAllValid(w: World, rule: Rules.ConditionSet, beside: seq<Rules.Condition>)
    requires NoneOr(rule.conds)
    ensures AllValid(w, rule, beside) <==> ValidPlain(w, rule.conds + beside)
  {
    assert IsCombination(rule, beside, rule.conds + beside);
  }

  lemma {:induction false} NestedAllValid(w: World, rule: Rules.ConditionSet, or: nat, beside: seq<Rules.Condition>)
    requires or < |rule.conds| && rule.conds[or].or.Or?
    requires forall k :: 0 <= k < |rule.conds| && k != or ==> rule.conds[k].or.NoOr?
    ensures AllValid(w, rule, beside) <==> forall j :: 0 <= j < |rule.conds[or].or.sets| ==>
              AllValid(w, rule.conds[or].or.sets[j], rule.conds[..or] + rule.conds[or + 1..] + beside)
  {
    var sets, plain := rule.conds[or].or.sets, rule.conds[..or] + rule.conds[or + 1..] + beside;
    assert !NoneOr(rule.conds);
    forall cs ensures IsCombination(rule, beside, cs) <==>
      exists j :: 0 <= j < |sets| && IsCombination(sets[j], plain, cs) {
      if j :| 0 <= j < |sets| && IsCombination(sets[j], plain, cs) {
        assert IsCombination(rule.conds[or].or.sets[j], rule.conds[..or] + rule.conds[or + 1..] + beside, cs);
      }
    }
  }

  lemma {:induction false} ConcatAt(a: seq<Rules.Condition>, b: seq<Rules.Condition>, k: nat)
    requires NoneOr(b) && k < |a + b|
    ensures if k < |a| then (a + b)[k] == a[k] else (a + b)[k].or.NoOr?
  {
  }

  /** The conditions beside a rule have no alternatives, so the first in both is the same. */
  lemma {:induction false} OrBeside(rule: Rules.ConditionSet, beside: seq<Rules.Condition>)
    requires NoneOr(beside)
    ensures var or := FindOr(rule.conds + beside, 0);
            if or == |rule.conds + beside| then NoneOr(rule.conds)
            else or < |rule.conds| && (rule.conds + beside)[or] == rule.conds[or] && FindOr(rule.conds, 0) == or
  {
    var cs, or := rule.conds + beside, FindOr(rule.conds + beside, 0);
    forall k | 0 <= k < |cs| ensures if k < |rule.conds| then cs[k] == rule.conds[k] else cs[k].or.NoOr? {
      ConcatAt(rule.conds, beside, k);
    }
  }

  lemma {:induction false} OnlyOrBeside(rule: Rules.ConditionSet, beside: seq<Rules.Condition>, or: nat)
    requires NoneOr(beside) && or < |rule.conds| && FindOr(rule.conds, 0) == or
    ensures var cs := rule.conds + beside;
            FindOr(cs, or + 1) == |cs| <==> forall k :: 0 <= k < |rule.conds| && k != or ==> rule.conds[k].or.NoOr?
  {
    var cs := rule.conds + beside;
    forall k | 0 <= k < |cs| ensures if k < |rule.conds| then cs[k] == rule.conds[k] else cs[k].or.NoOr? {
      ConcatAt(rule.conds, beside, k);
    }
    if FindOr(cs, or + 1) < |cs| {
      assert rule.conds[FindOr(cs, or + 1)].or.Or?;
    }
  }

  lemma {:induction false} OthersBeside(rule: Rules.ConditionSet, beside: seq<Rules.Condition>, or: nat)
    requires or < |rule.conds|
    ensures var cs := rule.conds + beside;
            cs[..or] + cs[or + 1..] == rule.conds[..or] + rule.conds[or + 1..] + beside
  {
  }

  lemma {:induction false} StructuredAt(rule: Rules.ConditionSet, or: nat, depth: nat)
    requires or < |rule.conds| && rule.conds[or].or.Or?
    requires forall k :: 0 <= k < |rule.conds| && k != or ==> rule.conds[k].or.NoOr?
    ensures Structured(rule, depth) <==>
            && depth > 0 && rule.conds[or].path == [] && rule.conds[or].pattern == NO_PATTERN
            && rule.conds[or].or.sets != []
            && forall j :: 0 <= j < |rule.conds[or].or.sets| ==> Structured(rule.conds[or].or.sets[j], depth - 1)
  {
  }

  ghost predicate Acceptable(w: World, before: nat, rule: Rules.ConditionSet, beside: seq<Rules.Condition>, depth: nat)
    requires depth <= MAX_OR_DEPTH
  {
    && Structured(rule, MAX_OR_DEPTH - depth) && AllValid(w, rule, beside)
    && (NoneOr(rule.conds) || before + Combinations(rule) <= MAX_CONDITION_SETS)
  }

  ghost predicate AllAcceptable(w: World, before: nat, sets: seq<Rules.ConditionSet>, beside: seq<Rules.Condition>,
                                depth: nat)
    requires depth < MAX_OR_DEPTH
  {
    && (forall j :: 0 <= j < |sets| ==> Structured(sets[j], MAX_OR_DEPTH - depth - 1) && AllValid(w, sets[j], beside))
    && before + CombinationsOf(sets) <= MAX_CONDITION_SETS
  }

  /** normalizeSets accepts the acceptable, and finds one condition set for every combination. */
  ghost predicate SetsAgree(w: World, before: nat, rule: Rules.ConditionSet, beside: seq<Rules.Condition>, depth: nat)
    requires depth <= MAX_OR_DEPTH
  {
    var r := NormalizeSets(w, before, rule.conds + beside, depth);
    (r.Some? <==> Acceptable(w, before, rule, beside, depth)) && (r.Some? ==> |r.value| == Combinations(rule))
  }

  ghost predicate AllAgree(w: World, before: nat, sets: seq<Rules.ConditionSet>, beside: seq<Rules.Condition>,
                           depth: nat)
    requires depth < MAX_OR_DEPTH
  {
    var r := NormalizeAlternatives(w, before, sets, beside, depth);
    (r.Some? <==> AllAcceptable(w, before, sets, beside, depth)) && (r.Some? ==> |r.value| == CombinationsOf(sets))
  }

  lemma {:induction false} SetsAccepted(w: World, before: nat, rule: Rules.ConditionSet, beside: seq<Rules.Condition>,
                                        depth: nat)
    requires w.Lawful() && depth <= MAX_OR_DEPTH && before <= MAX_CONDITION_SETS && NoneOr(beside)
    ensures SetsAgree(w, before, rule, beside, depth)
    decreases rule, 1
  {
    var cs, or := rule.conds + beside, FindOr(rule.conds + beside, 0);
    OrBeside(rule, beside);
    if or == |cs| {
      PlainAllValid(w, rule, beside);
      if cs != [] {
        PlainAccepted(w, cs);
      }
    } else {
      OnlyOrBeside(rule, beside, or);
      if FindOr(cs, or + 1) == |cs| {
        NestedAccepted(w, before, rule, or, beside, depth);
      } else {
        SeveralOrs(w, before, rule, or, beside, depth);
      }
    }
  }

  lemma {:induction false} SeveralOrs(w: World, before: nat, rule: Rules.ConditionSet, or: nat,
                                      beside: seq<Rules.Condition>, depth: nat)
    requires depth <= MAX_OR_DEPTH && or < |rule.conds| && rule.conds[or].or.Or?
    requires FindOr(rule.conds + beside, 0) == or && FindOr(rule.conds + beside, or + 1) < |rule.conds + beside|
    requires exists k :: 0 <= k < |rule.conds| && k != or && rule.conds[k].or.Or?
    ensures SetsAgree(w, before, rule, beside, depth)
  {
    var k :| 0 <= k < |rule.conds| && k != or && rule.conds[k].or.Or?;
    assert !Structured(rule, MAX_OR_DEPTH - depth);
  }

  /** NormalizeSets, when or is the only condition with alternatives. */
  lemma {:induction false} NestedParts(w: World, before: nat, rule: Rules.ConditionSet, or: nat,
                                       beside: seq<Rules.Condition>, depth: nat)
    requires depth <= MAX_OR_DEPTH && NoneOr(beside) && or < |rule.conds| && FindOr(rule.conds, 0) == or
    requires forall k :: 0 <= k < |rule.conds| && k != or ==> rule.conds[k].or.NoOr?
    requires FindOr(rule.conds + beside, 0) == or
    ensures var c := rule.conds[or];
            NormalizeSets(w, before, rule.conds + beside, depth) ==
            if c.or.sets == [] || c.path != [] || c.pattern != NO_PATTERN || depth >= MAX_OR_DEPTH then None
            else NormalizeAlternatives(w, before, c.or.sets, rule.conds[..or] + rule.conds[or + 1..] + beside, depth)
  {
    OnlyOrBeside(rule, beside, or);
    OthersBeside(rule, beside, or);
  }

  lemma {:induction false} NestedAccepted(w: World, before: nat, rule: Rules.ConditionSet, or: nat,
                                          beside: seq<Rules.Condition>, depth: nat)
    requires w.Lawful() && depth <= MAX_OR_DEPTH && before <= MAX_CONDITION_SETS && NoneOr(beside)
    requires or < |rule.conds| && rule.conds[or].or.Or? && FindOr(rule.conds, 0) == or
    requires forall k :: 0 <= k < |rule.conds| && k != or ==> rule.conds[k].or.NoOr?
    requires FindOr(rule.conds + beside, 0) == or
    ensures SetsAgree(w, before, rule, beside, depth)
    decreases rule, 0
  {
    var plain := rule.conds[..or] + rule.conds[or + 1..] + beside;
    NestedParts(w, before, rule, or, beside, depth);
    StructuredAt(rule, or, MAX_OR_DEPTH - depth);
    NestedAllValid(w, rule, or, beside);
    assert !NoneOr(rule.conds);
    if depth < MAX_OR_DEPTH {
      AlternativesAccepted(w, before, rule.conds[or].or.sets, plain, depth);
    }
  }

  lemma {:induction false} FirstAcceptable(w: World, before: nat, sets: seq<Rules.ConditionSet>,
                                           beside: seq<Rules.Condition>, depth: nat)
    requires depth < MAX_OR_DEPTH && sets != []
    ensures AllAcceptable(w, before, sets, beside, depth) <==>
            && Acceptable(w, before, sets[0], beside, depth + 1)
            && AllAcceptable(w, before + Combinations(sets[0]), sets[1..], beside, depth)
  {
    var rest := sets[1..];
    assert forall j :: 0 <= j < |rest| ==> rest[j] == sets[j + 1];
    assert forall j :: 0 < j < |sets| ==> sets[j] == rest[j - 1];
  }

  lemma {:induction false} TooMany(w: World, before: nat, sets: seq<Rules.ConditionSet>, beside: seq<Rules.Condition>,
                                   depth: nat)
    requires depth < MAX_OR_DEPTH && AllAcceptable(w, before, sets, beside, depth)
    ensures before <= MAX_CONDITION_SETS
  {
  }

  /** The first result and the rest in one, as the loop over the alternatives joins them. */
  function Joined(before: nat, first: Option<seq<seq<NCond>>>, rest: Option<seq<seq<NCond>>>): Option<seq<seq<NCond>>> {
    if first.None? || before + |first.value| > MAX_CONDITION_SETS || rest.None? then None
    else Some(first.value + rest.value)
  }

  lemma {:induction false} JoinedParts(w: World, before: nat, sets: seq<Rules.ConditionSet>,
                                       beside: seq<Rules.Condition>, depth: nat, n: nat)
    requires depth < MAX_OR_DEPTH && sets != []
    requires var first := NormalizeSets(w, before, sets[0].conds + beside, depth + 1);
             first.Some? ==> |first.value| == n
    ensures NormalizeAlternatives(w, before, sets, beside, depth) ==
            Joined(before, NormalizeSets(w, before, sets[0].conds + beside, depth + 1),
                   NormalizeAlternatives(w, before + n, sets[1..], beside, depth))
  {
    AlternativesParts(w, before, sets, beside, depth);
  }

  lemma {:induction false} JoinAgree(before: nat, first: Option<seq<seq<NCond>>>, rest: Option<seq<seq<NCond>>>,
                                     n: nat, m: nat, firstOk: bool, restOk: bool)
    requires (first.Some? <==> firstOk) && (first.Some? ==> |first.value| == n)
    requires before + n <= MAX_CONDITION_SETS ==> (rest.Some? <==> restOk) && (rest.Some? ==> |rest.value| == m)
    requires restOk ==> before + n <= MAX_CONDITION_SETS
    ensures Joined(before, first, rest).Some? <==> firstOk && restOk
    ensures Joined(before, first, rest).Some? ==> |Joined(before, first, rest).value| == n + m
  {
  }

  /** What is claimed for all alternatives follows for one more in front. */
  lemma {:induction false} AlternativesAgree(w: World, before: nat, sets: seq<Rules.ConditionSet>,
                                             beside: seq<Rules.Condition>, depth: nat)
    requires depth < MAX_OR_DEPTH && before <= MAX_CONDITION_SETS && sets != []
    requires SetsAgree(w, before, sets[0], beside, depth + 1)
    requires before + Combinations(sets[0]) <= MAX_CONDITION_SETS ==>
      AllAgree(w, before + Combinations(sets[0]), sets[1..], beside, depth)
    ensures AllAgree(w, before, sets, beside, depth)
  {
    var n := Combinations(sets[0]);
    var restOk := AllAcceptable(w, before + n, sets[1..], beside, depth);
    if restOk {
      TooMany(w, before + n, sets[1..], beside, depth);
    }
    JoinedParts(w, before, sets, beside, depth, n);
    JoinAgree(before, NormalizeSets(w, before, sets[0].conds + beside, depth + 1),
              NormalizeAlternatives(w, before + n, sets[1..], beside, depth), n, CombinationsOf(sets[1..]),
              Acceptable(w, before, sets[0], beside, depth + 1), restOk);
    FirstAcceptable(w, before, sets, beside, depth);
  }

  lemma {:induction false} NoAlternatives(w: World, before: nat, beside: seq<Rules.Condition>, depth: nat)
    requires depth < MAX_OR_DEPTH && before <= MAX_CONDITION_SETS
    ensures AllAgree(w, before, [], beside, depth)
  {
  }

  lemma {:induction false} AlternativesAccepted(w: World, before: nat, sets: seq<Rules.ConditionSet>,
                                                beside: seq<Rules.Condition>, depth: nat)
    requires w.Lawful() && depth < MAX_OR_DEPTH && before <= MAX_CONDITION_SETS && NoneOr(beside)
    ensures AllAgree(w, before, sets, beside, depth)
    decreases sets, 1
  {
    if sets == [] {
      NoAlternatives(w, before, beside, depth);
    } else {
      SetsAccepted(w, before, sets[0], beside, depth + 1);
      RestAccepted(w, before, sets, beside, depth);
      AlternativesAgree(w, before, sets, beside, depth);
    }
  }

  /** The same for all but the first alternative, unless there are too many already. */
  lemma {:induction false} RestAccepted(w: World, before: nat, sets: seq<Rules.ConditionSet>,
                                        beside: seq<Rules.Condition>, depth: nat)
    requires w.Lawful() && depth < MAX_OR_DEPTH && NoneOr(beside) && sets != []
    ensures before + Combinations(sets[0]) <= MAX_CONDITION_SETS ==>
              AllAgree(w, before + Combinations(sets[0]), sets[1..], beside, depth)
    decreases sets, 0
  {
    if before + Combinations(sets[0]) <= MAX_CONDITION_SETS {
      AlternativesAccepted(w, before + Combinations(sets[0]), sets[1..], beside, depth);
    }
  }

  /** normalizeRule accepts exactly the valid rules, and compiles each of their combinations. */
  lemma {:induction false} RuleAccepted(w: World, rule: Rules.ConditionSet)
    requires w.Lawful()
    ensures NormalizeRule(w, rule).Some? <==> ValidRule(w, rule)
    ensures NormalizeRule(w, rule).Some? ==> |NormalizeRule(w, rule).value| == Combinations(rule)
  {
    assert rule.conds + [] == rule.conds;
    SetsAccepted(w, 0, rule, [], 0);
    if NoneOr(rule.conds) {
      assert Combinations(rule) == 1;
    }
  }

  // ---------------------------------------------------------------- limits

  /** A rule that is one condition with these alternatives. */
  function OnlyOr(sets: seq<Rules.ConditionSet>): Rules.ConditionSet {
    Rules.ConditionSet([Rules.Condition([], Rules.Pattern(Rules.Equals, [], [], false), Rules.Or(sets))])
  }

  lemma {:induction false} OnlyOrValid(w: World, sets: seq<Rules.ConditionSet>, depth: nat)
    ensures Structured(OnlyOr(sets), depth) <==>
            depth > 0 && sets != [] && forall j :: 0 <= j < |sets| ==> Structured(sets[j], depth - 1)
    ensures AllValid(w, OnlyOr(sets), []) <==> forall j :: 0 <= j < |sets| ==> AllValid(w, sets[j], [])
    ensures Combinations(OnlyOr(sets)) == CombinationsOf(sets)
  {
    var rule := OnlyOr(sets);
    assert rule.conds[0].or == Rules.Or(sets) && rule.conds[..0] + rule.conds[1..] + [] == [];
    StructuredAt(rule, 0, depth);
    NestedAllValid(w, rule, 0, []);
  }

  lemma {:induction false} OneCondition(w: World, c: Rules.Condition, depth: nat)
    requires c.or.NoOr?
    ensures var rule := Rules.ConditionSet([c]);
            Structured(rule, depth) && (AllValid(w, rule, []) <==> ValidCondition(w, c)) && Combinations(rule) == 1
  {
    var rule := Rules.ConditionSet([c]);
    PlainAllValid(w, rule, []);
    assert rule.conds + [] == [c];
    assert ValidPlain(w, [c]) <==> ValidCondition(w, [c][0]);
  }

  /** One set for each of the conditions. */
  function EachAlone(cs: seq<Rules.Condition>): (sets: seq<Rules.ConditionSet>)
    ensures |sets| == |cs| && forall i :: 0 <= i < |cs| ==> sets[i] == Rules.ConditionSet([cs[i]])
  {
    seq(|cs|, i requires 0 <= i < |cs| => Rules.ConditionSet([cs[i]]))
  }

  lemma {:induction false} CombinationsAlone(sets: seq<Rules.ConditionSet>)
    requires forall j :: 0 <= j < |sets| ==> Combinations(sets[j]) == 1
    ensures CombinationsOf(sets) == |sets|
  {
    if sets != [] {
      var rest := sets[1..];
      assert forall j :: 0 <= j < |rest| ==> rest[j] == sets[j + 1];
      CombinationsAlone(rest);
    }
  }

  /** Alternatives of one condition each are valid if the conditions are and there are at most 1024. */
  lemma {:induction false} AlternativesValid(w: World, cs: seq<Rules.Condition>)
    requires cs != [] && NoneOr(cs)
    ensures ValidRule(w, OnlyOr(EachAlone(cs))) <==> |cs| <= 1024 && AllValidConditions(w, cs)
  {
    var sets := EachAlone(cs);
    forall j | 0 <= j < |sets|
      ensures Structured(sets[j], 31) && Combinations(sets[j]) == 1
      ensures AllValid(w, sets[j], []) <==> ValidCondition(w, cs[j])
    {
      OneCondition(w, cs[j], 31);
    }
    CombinationsAlone(sets);
    OnlyOrValid(w, sets, 32);
    assert (forall j :: 0 <= j < |sets| ==> AllValid(w, sets[j], [])) <==> AllValidConditions(w, cs);
  }

  /** A condition inside n conditions with a single alternative. */
  function Nest(c: Rules.Condition, n: nat): Rules.ConditionSet {
    if n == 0 then Rules.ConditionSet([c]) else OnlyOr([Nest(c, n - 1)])
  }

  lemma {:induction false} OneAlternative(w: World, rule: Rules.ConditionSet, depth: nat)
    ensures Structured(OnlyOr([rule]), depth) <==> depth > 0 && Structured(rule, depth - 1)
    ensures AllValid(w, OnlyOr([rule]), []) <==> AllValid(w, rule, [])
    ensures Combinations(OnlyOr([rule])) == Combinations(rule)
  {
    OnlyOrValid(w, [rule], depth);
    assert [rule][0] == rule && [rule][1..] == [];
  }

  lemma {:induction false} NestIs(w: World, c: Rules.Condition, n: nat, depth: nat)
    requires c.or.NoOr?
    ensures Structured(Nest(c, n), depth) <==> n <= depth
    ensures AllValid(w, Nest(c, n), []) <==> ValidCondition(w, c)
    ensures Combinations(Nest(c, n)) == 1
    decreases n
  {
    if n == 0 {
      OneCondition(w, c, depth);
    } else {
      NestIs(w, c, n - 1, if depth > 0 then depth - 1 else 0);
      OneAlternative(w, Nest(c, n - 1), depth);
    }
  }

  /** Nested alternatives are valid if the condition inside is and there are at most 32. */
  lemma {:induction false} NestValid(w: World, c: Rules.Condition, n: nat)
    requires c.or.NoOr?
    ensures ValidRule(w, Nest(c, n)) <==> n <= 32 && ValidCondition(w, c)
  {
    NestIs(w, c, n, 32);
  }
}
