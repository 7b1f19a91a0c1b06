/** The trie can store whatever normalization builds. */
module NormalizeGood {
  import opened ByteStrings
  import opened Sorting
  import opened Expressions
  import opened Semantics
  import opened Normalize
  import opened NormalizeCorrect
  import opened ValueIndex
  import Rules
  import Glob
  import GlobTrie
  import NumIndex
  import Tries

  // ------------------------------------------------------------- wildcards

  /** The parts completed by the tokens ts[..k] stay. */
  lemma {:induction false} PartsStay(ts: seq<Glob.Token>, k: nat)
    requires k <= |ts|
    ensures var p, q := Glob.PartsOf(ts[..k]), Glob.PartsOf(ts);
            |p| <= |q| && q[..|p| - 1] == p[..|p| - 1]
    decreases |ts|
  {
    if k == |ts| {
      TakeAll(ts);
    } else {
      var init := ts[..|ts| - 1];
      PartsStay(init, k);
      assert init[..k] == ts[..k];
    }
  }

  /** Two stars in a row leave an empty part between them. */
  lemma {:induction false} NoEmptyMiddleNoDoubleStar(ts: seq<Glob.Token>)
    requires !Glob.HasEmptyMiddle(Glob.PartsOf(ts))
    ensures GlobTrie.NoDoubleStar(ts)
  {
    forall k | 0 <= k && k + 1 < |ts| ensures !(ts[k].Star? && ts[k + 1].Star?) {
      if ts[k].Star? && ts[k + 1].Star? {
        DoubleStarPart(ts, k);
      }
    }
  }

  lemma {:induction false} DoubleStarPart(ts: seq<Glob.Token>, k: nat)
    requires k + 1 < |ts| && ts[k].Star? && ts[k + 1].Star?
    ensures Glob.HasEmptyMiddle(Glob.PartsOf(ts))
  {
    var before := ts[..k];
    var p := Glob.PartsOf(before);
    assert ts[..k + 1][..k] == before && ts[..k + 2][..k + 1] == ts[..k + 1];
    assert Glob.PartsOf(ts[..k + 1]) == p + [[]];
    assert Glob.PartsOf(ts[..k + 2]) == p + [[]] + [[]];
    PartsStay(ts, k + 2);
    var q := Glob.PartsOf(ts);
    assert q[..|p| + 1] == (p + [[]] + [[]])[..|p| + 1];
    assert q[|p|] == q[..|p| + 1][|p|];
  }

  lemma {:induction false} PlainTokenAt(v: Bytes, i: nat)
    requires BACKSLASH !in v && i < |v|
    ensures Glob.Tokens(v).Some? && |Glob.Tokens(v).value| == |v|
    ensures Glob.Tokens(v).value[i] == if v[i] == STAR then Glob.Star else Glob.Lit(v[i])
  {
    if i > 0 {
      PlainTokenAt(v[1..], i - 1);
    } else if |v| > 1 {
      PlainTokenAt(v[1..], 0);
    }
  }

  lemma {:induction false} PlainNoDoubleStar(v: Bytes)
    requires BACKSLASH !in v && Glob.Index(v, [STAR, STAR], 0) < 0
    ensures Glob.Tokens(v).Some? && GlobTrie.NoDoubleStar(Glob.Tokens(v).value)
  {
    if v != [] {
      PlainTokenAt(v, 0);
      var ts, stars: Bytes := Glob.Tokens(v).value, [STAR, STAR];
      forall i | 0 < i < |ts| ensures !(ts[i - 1].Star? && ts[i].Star?) {
        PlainTokenAt(v, i - 1);
        PlainTokenAt(v, i);
        assert v[i - 1..i - 1 + |stars|] == [v[i - 1], v[i]];
        assert !Glob.Occurs(v, stars, i - 1);
      }
    }
  }

  lemma {:induction false} WildcardGood(w: World, v: Bytes)
    requires NormalizeWildcard(v).Some?
    ensures GoodExpr(w, NormalizeWildcard(v).value)
  {
    if BACKSLASH !in v {
      PlainNoDoubleStar(v);
    } else {
      NoEmptyMiddleNoDoubleStar(Glob.Tokens(v).value);
    }
  }

  // -------------------------------------------------------------- patterns

  lemma {:induction false} IntervalGood(w: World, p: Rules.Pattern)
    requires p.typ == Rules.Between && Rules.BetweenInterval(w, p).Some?
    ensures NumIndex.Nonempty(Rules.BetweenInterval(w, p).value)
  {
  }

  /** The bound of a comparison is finite, so some number lies within it. */
  lemma {:induction false} BoundGood(w: World, p: Rules.Pattern)
    requires Rules.IsNumeric(p.typ) && Rules.NumericBound(w, p).Some?
    ensures NumIndex.Nonempty(Rules.BoundInterval(p.typ, Rules.NumericBound(w, p).value))
  {
  }

  lemma {:induction false} LiteralGood(w: World, p: Rules.Pattern)
    requires w.Lawful() && IsLiteral(p.typ) && NormalizePattern(w, p).Some?
    ensures GoodExpr(w, NormalizePattern(w, p).value)
  {
    if p.typ == Rules.Wildcard {
      WildcardGood(w, w.fold(p.value));
    } else if p.typ == Rules.Between {
      IntervalGood(w, p);
      BetweenIsInterval(w, p);
    } else if Rules.IsNumeric(p.typ) {
      BoundGood(w, p);
      BoundIsInterval(w, p);
    }
  }

  ghost predicate AllGood(w: World, es: seq<Expr>) {
    forall e :: e in es ==> GoodExpr(w, e)
  }

  lemma {:induction false} FlattenGood(w: World, op: Op, es: seq<Expr>)
    requires AllGood(w, es)
    ensures AllGood(w, Flatten(op, es))
  {
    if es != [] {
      FlattenGood(w, op, es[1..]);
      assert es[0] in es && GoodExpr(w, es[0]);
    }
  }

  lemma {:induction false} CombineGood(w: World, op: Op, es: seq<Expr>)
    requires AllGood(w, es) && es != [] && AllCanonical(es)
    ensures GoodExpr(w, Combine(op, es))
  {
    var flat := Flatten(op, es);
    var compact := Compact(SameKey, Sort(KeyLeq, flat));
    FlattenCanonical(op, es);
    FlattenGood(w, op, es);
    CombineOperands(flat);
    assert AllGood(w, compact);
    assert forall i :: 0 <= i < |compact| ==> compact[i] in compact;
  }

  lemma {:induction false} PatternGood(w: World, p: Rules.Pattern)
    requires w.Lawful() && NormalizePattern(w, p).Some?
    ensures GoodExpr(w, NormalizePattern(w, p).value)
    decreases p, 1
  {
    if p.typ in {Rules.AnyOf, Rules.AllOf, Rules.AnythingBut} {
      var es := NormalizeSubs(w, p.sub).value;
      SubsGood(w, p.sub);
      SubsCanonical(w, p.sub);
      CombineGood(w, AnyOf, es);
      CombineGood(w, AllOf, es);
    } else if p.typ != Rules.Exists {
      LiteralGood(w, p);
    }
  }

  lemma {:induction false} SubsGood(w: World, ps: seq<Rules.Pattern>)
    requires w.Lawful() && NormalizeSubs(w, ps).Some?
    ensures AllGood(w, NormalizeSubs(w, ps).value)
    decreases ps, 0
  {
    if ps != [] {
      PatternGood(w, ps[0]);
      SubsGood(w, ps[1..]);
    }
  }

  lemma {:induction false} SubsCanonical(w: World, ps: seq<Rules.Pattern>)
    requires w.Lawful() && NormalizeSubs(w, ps).Some?
    ensures AllCanonical(NormalizeSubs(w, ps).value)
  {
    if ps != [] {
      PatternFaithful(w, ps[0]);
      SubsCanonical(w, ps[1..]);
    }
  }

  // ------------------------------------------------------------ conditions

  ghost predicate GoodConds(w: World, conds: seq<NCond>) {
    forall c :: c in conds ==> Tries.GoodCond(w, c)
  }

  ghost predicate GoodSets(w: World, sets: seq<seq<NCond>>) {
    forall s :: s in sets ==> GoodConds(w, s)
  }

  lemma {:induction false} EachGood(w: World, cs: seq<Rules.Condition>)
    requires w.Lawful() && NormalizeEach(w, cs).Some?
    ensures GoodConds(w, NormalizeEach(w, cs).value)
  {
    if cs != [] {
      PatternGood(w, cs[0].pattern);
      PatternFaithful(w, cs[0].pattern);
      EachGood(w, cs[1..]);
    }
  }

  lemma {:induction false} ExprsGood(w: World, run: seq<NCond>)
    requires GoodConds(w, run)
    ensures AllGood(w, Exprs(run))
  {
    if run != [] {
      assert run[0] in run;
      ExprsGood(w, run[1..]);
    }
  }

  lemma {:induction false} RunGood(w: World, run: seq<NCond>)
    requires run != [] && MergeRun(run).Some? && GoodConds(w, run)
    requires forall i :: 0 <= i < |run| ==> run[i].path == run[0].path
    ensures Tries.GoodCond(w, MergeRun(run).value)
  {
    assert forall i :: 0 <= i < |run| ==> run[i] in run;
    RunWellFormed(run);
    ExprsGood(w, run);
    if |run| > 1 {
      CombineGood(w, AllOf, Exprs(run));
    }
  }

  lemma {:induction false} MergeGood(w: World, conds: seq<NCond>)
    requires Merge(conds).Some? && GoodConds(w, conds)
    ensures GoodConds(w, Merge(conds).value)
    decreases |conds|
  {
    if conds != [] {
      var run, rest := MergeUnfold(conds);
      assert forall c :: c in run || c in rest ==> c in conds;
      RunGood(w, run);
      MergeGood(w, rest);
    }
  }

  lemma {:induction false} ConditionsGood(w: World, cs: seq<Rules.Condition>)
    requires w.Lawful() && NormalizeConditions(w, cs).Some?
    ensures GoodConds(w, NormalizeConditions(w, cs).value)
  {
    var conds := NormalizeEach(w, cs).value;
    EachGood(w, cs);
    PathOrder();
    SortCorrect(PathLeq, conds);
    MergeGood(w, Sort(PathLeq, conds));
  }

  lemma {:induction false} SetsGood(w: World, before: nat, cs: seq<Rules.Condition>, depth: nat)
    requires w.Lawful() && depth <= MAX_OR_DEPTH && NormalizeSets(w, before, cs, depth).Some?
    ensures GoodSets(w, NormalizeSets(w, before, cs, depth).value)
    decreases MAX_OR_DEPTH - depth, 0
  {
    var or := FindOr(cs, 0);
    if or == |cs| {
      ConditionsGood(w, cs);
    } else {
      AlternativesGood(w, before, cs[or].or.sets, cs[..or] + cs[or + 1..], depth);
    }
  }

  lemma {:induction false} AlternativesGood(w: World, before: nat, alternatives: seq<Rules.ConditionSet>,
                                            plain: seq<Rules.Condition>, depth: nat)
    requires w.Lawful() && depth < MAX_OR_DEPTH
    requires NormalizeAlternatives(w, before, alternatives, plain, depth).Some?
    ensures GoodSets(w, NormalizeAlternatives(w, before, alternatives, plain, depth).value)
    decreases MAX_OR_DEPTH - depth - 1, 1, |alternatives|
  {
    if alternatives != [] {
      SetsGood(w, before, alternatives[0].conds + plain, depth + 1);
      var sets := NormalizeSets(w, before, alternatives[0].conds + plain, depth + 1).value;
      AlternativesGood(w, before + |sets|, alternatives[1..], plain, depth);
    }
  }

  /** Every condition set of a valid rule can be inserted into the trie. */
  lemma {:induction false} RuleGood(w: World, rule: Rules.ConditionSet)
    requires w.Lawful() && NormalizeRule(w, rule).Some?
    ensures GoodSets(w, NormalizeRule(w, rule).value)
  {
    SetsGood(w, 0, rule.conds, 0);
  }
}
