/** Normalization preserves the meaning of every rule. */
module NormalizeCorrect {
  import opened ByteStrings
  import opened Numbers
  import opened Sorting
  import opened Expressions
  import opened Semantics
  import opened Normalize
  import Rules
  import Glob

  // ----------------------------------------------------------- wildcards

  ghost predicate Means(w: World, e: Expr, v: Bytes) {
    && e.Leaf?
    && forall x :: LeafMatches(w, e.kind, e.value, x) <==>
                   Glob.Tokens(v).Some? && Glob.Accepts(Glob.Tokens(v).value, x)
  }

  lemma {:induction false} FitsOne(part: Bytes, x: Bytes)
    ensures Glob.Fits([part], x) <==> x == part
  {
    assert |x| == |part| ==> x[0..|part|] == x;
  }

  lemma {:induction false} FitsTwo(first: Bytes, last: Bytes, x: Bytes)
    ensures Glob.Fits([first, last], x) <==> |x| >= |first| + |last| && first <= x && HasSuffix(x, last)
  {
    Glob.EndsAndMiddle([first, last], x);
  }

  /** The leaf for the parts of a pattern means what the pattern means. */
  lemma {:induction false} PartsMeaning(w: World, v: Bytes, parts: seq<Bytes>)
    requires Glob.Tokens(v).Some? && parts == Glob.PartsOf(Glob.Tokens(v).value)
    ensures Means(w, WildcardLeaf(v, parts), v)
  {
    var ts := Glob.Tokens(v).value;
    var e := WildcardLeaf(v, parts);
    if e.kind != LeafGlob {
      forall x ensures LeafMatches(w, e.kind, e.value, x) <==> Glob.Accepts(ts, x) {
        Glob.AcceptsIsFits(ts, x);
        if |parts| == 1 {
          assert parts == [parts[0]];
          FitsOne(parts[0], x);
        } else {
          assert parts == [parts[0], parts[1]];
          FitsTwo(parts[0], parts[1], x);
        }
      }
    }
  }

  lemma {:induction false} NoStars(v: Bytes)
    requires STAR !in v
    ensures Glob.PlainParts(v) == [v]
  {
    if v != [] {
      NoStars(v[..|v| - 1]);
      assert v == v[..|v| - 1] + [v[|v| - 1]];
    }
  }

  lemma {:induction false} LeadingStar(core: Bytes)
    requires STAR !in core
    ensures Glob.PlainParts([STAR] + core) == [[], core]
  {
    var v := [STAR] + core;
    if core == [] {
      assert v[..0] == [];
      assert Glob.PlainParts(v[..0]) == [[]];
    } else {
      var init := core[..|core| - 1];
      LeadingStar(init);
      assert v[..|v| - 1] == [STAR] + init;
      assert core == init + [core[|core| - 1]];
      assert [[], init][..1] == [[]];
    }
  }

  lemma {:induction false} TrailingStar(core: Bytes)
    requires STAR !in core
    ensures Glob.PlainParts(core + [STAR]) == [core, []]
  {
    NoStars(core);
    assert (core + [STAR])[..|core|] == core;
  }

  /** A core without stars, with a star before or after it, or none. */
  lemma {:induction false} PlainCore(v: Bytes, core: Bytes)
    requires STAR !in core
    ensures v == core ==> WildcardLeaf(v, Glob.PlainParts(v)) == Leaf(LeafEquals, core)
    ensures v == core + [STAR] && core != [] ==> WildcardLeaf(v, Glob.PlainParts(v)) == Leaf(LeafPrefix, core)
    ensures v == [STAR] + core ==> WildcardLeaf(v, Glob.PlainParts(v)) == Leaf(LeafSuffix, core)
  {
    NoStars(core);
    TrailingStar(core);
    LeadingStar(core);
  }

  /** The short way for patterns without escapes agrees with the parts. */
  lemma {:induction false} PlainAgrees(w: World, v: Bytes)
    requires BACKSLASH !in v && v != [STAR]
    requires PlainWildcardLeaf(v).kind != LeafGlob
    ensures PlainWildcardLeaf(v) == WildcardLeaf(v, Glob.PlainParts(v))
  {
    var lead := |v| > 0 && v[0] == STAR;
    var cut := if lead then v[1..] else v;
    var trail := |cut| > 0 && cut[|cut| - 1] == STAR;
    var core := if trail then cut[..|cut| - 1] else cut;
    PlainCore(v, core);
    assert lead ==> v == [STAR] + cut;
    assert trail ==> cut == core + [STAR];
  }

  lemma {:induction false} WildcardMeaning(w: World, v: Bytes)
    requires NormalizeWildcard(v).Some?
    ensures Means(w, NormalizeWildcard(v).value, v)
  {
    if BACKSLASH !in v {
      Glob.PlainTokens(v);
      if v == [STAR] {
        StarMeaning(w);
      } else if PlainWildcardLeaf(v).kind != LeafGlob {
        PlainAgrees(w, v);
        PartsMeaning(w, v, Glob.PlainParts(v));
      }
    } else {
      PartsMeaning(w, v, Glob.Split(v).value);
    }
  }

  lemma {:induction false} StarMeaning(w: World)
    ensures Means(w, Leaf(LeafExists, []), [STAR])
  {
    var v: Bytes := [STAR];
    Glob.SingleToken(v);
    var ts := [Glob.Star];
    forall x: Bytes ensures Glob.Accepts(ts, x) {
      assert ts[..0] == [] && x[..0] == [];
      assert Glob.Accepts(ts[..0], x[..0]);
    }
  }

  // ------------------------------------------------------------ patterns

  predicate IsLiteral(t: Rules.PatternType) {
    t !in {Rules.AnyOf, Rules.AllOf, Rules.AnythingBut, Rules.Exists, Rules.Unknown}
  }

  /** The bounds of a numeric pattern are numbers its text denotes, so its interval can be read back from the key. */
  lemma {:induction false} BoundIsInterval(w: World, p: Rules.Pattern)
    requires Rules.NumericBound(w, p).Some?
    ensures w.IsInterval(Rules.BoundInterval(p.typ, Rules.NumericBound(w, p).value))
  {
    assert w.parseNumber(p.value) == Rules.NumericBound(w, p);
  }

  lemma {:induction false} BoundsAreInterval(w: World, sub: seq<Rules.Pattern>, iv: Interval, lower: bool, upper: bool)
    requires w.IsInterval(iv) && Rules.BetweenBounds(w, sub, iv, lower, upper).Some?
    ensures w.IsInterval(Rules.BetweenBounds(w, sub, iv, lower, upper).value)
  {
    if sub != [] {
      BoundIsInterval(w, sub[0]);
      var b := Rules.BoundInterval(sub[0].typ, Rules.NumericBound(w, sub[0]).value);
      if sub[0].typ == Rules.GreaterThan || sub[0].typ == Rules.GreaterThanOrEqual {
        BoundsAreInterval(w, sub[1..], iv.(lo := b.lo, loOpen := b.loOpen), true, upper);
      } else {
        BoundsAreInterval(w, sub[1..], iv.(hi := b.hi, hiOpen := b.hiOpen), lower, true);
      }
    }
  }

  lemma {:induction false} BetweenIsInterval(w: World, p: Rules.Pattern)
    requires Rules.BetweenInterval(w, p).Some?
    ensures w.IsInterval(Rules.BetweenInterval(w, p).value)
  {
    BoundsAreInterval(w, p.sub, Interval(NegInf, PosInf, false, false), false, false);
  }

  /** A single-value pattern and its leaf match the same values. */
  lemma {:induction false} LiteralMeaning(w: World, p: Rules.Pattern)
    requires w.Lawful() && IsLiteral(p.typ) && NormalizePattern(w, p).Some?
    ensures var e := NormalizePattern(w, p).value;
            e.Leaf? && forall x :: LeafMatches(w, e.kind, e.value, x) <==> Rules.ValueMatches(w, p, x)
  {
    if p.typ == Rules.Wildcard {
      WildcardMeaning(w, w.fold(p.value));
    } else if p.typ == Rules.Between {
      BetweenIsInterval(w, p);
    } else if Rules.IsNumeric(p.typ) {
      BoundIsInterval(w, p);
    }
  }

  ghost predicate Faithful(w: World, p: Rules.Pattern, e: Expr) {
    && Canonical(e)
    && forall vs :: vs != [] ==> (Holds(w, e, vs) <==> Rules.PatternHolds(w, p, vs))
  }

  lemma {:induction false} LiteralFaithful(w: World, p: Rules.Pattern)
    requires w.Lawful() && IsLiteral(p.typ) && NormalizePattern(w, p).Some?
    ensures Faithful(w, p, NormalizePattern(w, p).value)
  {
    var e := NormalizePattern(w, p).value;
    LiteralMeaning(w, p);
    forall vs ensures Holds(w, e, vs) <==> Rules.PatternHolds(w, p, vs) {
      assert forall i :: 0 <= i < |vs| ==> vs[i] in vs;
    }
  }

  lemma {:induction false} ExistsFaithful(w: World)
    ensures forall p: Rules.Pattern :: p.typ == Rules.Exists && p.value == Rules.TRUE ==>
              Faithful(w, p, Leaf(LeafExists, []))
  {
    forall p: Rules.Pattern, vs: seq<Bytes> | p.typ == Rules.Exists && p.value == Rules.TRUE && vs != []
      ensures Holds(w, Leaf(LeafExists, []), vs) && Rules.PatternHolds(w, p, vs)
    {
      assert vs[0] in vs && LeafMatches(w, LeafExists, [], vs[0]);
    }
  }

  /** Normalizing a pattern keeps its meaning on every present property. */
  lemma {:induction false} PatternFaithful(w: World, p: Rules.Pattern)
    requires w.Lawful() && NormalizePattern(w, p).Some?
    ensures var e := NormalizePattern(w, p).value;
            if e.Absent? then p.typ == Rules.Exists && p.value == Rules.FALSE else Faithful(w, p, e)
    decreases p, 1
  {
    if IsLiteral(p.typ) {
      LiteralFaithful(w, p);
    } else if p.typ == Rules.Exists {
      ExistsFaithful(w);
    } else {
      SubsFaithful(w, p.sub);
      ComposedFaithful(w, p, NormalizeSubs(w, p.sub).value);
    }
  }

  lemma {:induction false} SubsFaithful(w: World, ps: seq<Rules.Pattern>)
    requires w.Lawful() && NormalizeSubs(w, ps).Some?
    ensures forall i :: 0 <= i < |ps| ==> Faithful(w, ps[i], NormalizeSubs(w, ps).value[i])
    decreases ps, 0
  {
    if ps != [] {
      PatternFaithful(w, ps[0]);
      SubsFaithful(w, ps[1..]);
    }
  }

  lemma {:induction false} ComposedFaithful(w: World, p: Rules.Pattern, es: seq<Expr>)
    requires p.typ in {Rules.AnyOf, Rules.AllOf, Rules.AnythingBut}
    requires es != [] && |es| == |p.sub|
    requires forall i :: 0 <= i < |es| ==> Faithful(w, p.sub[i], es[i])
    ensures Faithful(w, p, match p.typ
                           case AnyOf => Combine(AnyOf, es)
                           case AllOf => Combine(AllOf, es)
                           case _ => Negate(Combine(AnyOf, es)))
  {
    assert AllCanonical(es);
    CombineCanonical(AnyOf, es);
    CombineCanonical(AllOf, es);
    NegateCanonical(Combine(AnyOf, es));
    forall vs | vs != []
      ensures Holds(w, Combine(AnyOf, es), vs) <==> exists i :: 0 <= i < |es| && Rules.PatternHolds(w, p.sub[i], vs)
      ensures Holds(w, Combine(AllOf, es), vs) <==> forall i :: 0 <= i < |es| ==> Rules.PatternHolds(w, p.sub[i], vs)
      ensures Holds(w, Negate(Combine(AnyOf, es)), vs) <==> !Holds(w, Combine(AnyOf, es), vs)
    {
      OperandsFaithful(w, p.sub, es, vs);
      NegateMeaning(w, Combine(AnyOf, es), vs);
    }
  }

  lemma {:induction false} OperandsFaithful(w: World, ps: seq<Rules.Pattern>, es: seq<Expr>, vs: seq<Bytes>)
    requires vs != [] && es != [] && |es| == |ps|
    requires forall i :: 0 <= i < |es| ==> Faithful(w, ps[i], es[i])
    ensures Holds(w, Combine(AnyOf, es), vs) <==> exists i :: 0 <= i < |es| && Rules.PatternHolds(w, ps[i], vs)
    ensures Holds(w, Combine(AllOf, es), vs) <==> forall i :: 0 <= i < |es| ==> Rules.PatternHolds(w, ps[i], vs)
  {
    assert AllCanonical(es);
    CombineMeaning(w, AnyOf, es, vs);
    CombineMeaning(w, AllOf, es, vs);
    assert forall i :: 0 <= i < |es| ==> es[i] in es;
  }

  // ---------------------------------------------------------- conditions

  lemma {:induction false} ConditionMeaning(w: World, c: Rules.Condition, event: Rules.Event)
    requires w.Lawful() && c.or.NoOr? && NormalizeCondition(w, c).Some?
    ensures WellFormed(NormalizeCondition(w, c).value)
    ensures CondHoldsOn(w, NormalizeCondition(w, c).value, event) <==> Rules.ConditionHolds(w, c, event)
  {
    PatternFaithful(w, c.pattern);
    var vs := Rules.FoldedAt(w, event, c.path);
    var e := NormalizePattern(w, c.pattern).value;
    if vs == [] {
      assert !e.Absent? && c.pattern.typ == Rules.Exists ==> c.pattern.value == Rules.TRUE;
    }
  }

  lemma {:induction false} EachFirst(w: World, cs: seq<Rules.Condition>)
    requires cs != [] && NormalizeEach(w, cs).Some?
    ensures NormalizeCondition(w, cs[0]).Some? && NormalizeEach(w, cs[1..]).Some?
    ensures NormalizeEach(w, cs).value == [NormalizeCondition(w, cs[0]).value] + NormalizeEach(w, cs[1..]).value
  {
  }

  /** The normalized condition c means what the condition d means. */
  ghost predicate SameMeaning(w: World, c: NCond, d: Rules.Condition, event: Rules.Event) {
    WellFormed(c) && (CondHoldsOn(w, c, event) <==> Rules.ConditionHolds(w, d, event))
  }

  lemma {:induction false} EachMeaning(w: World, cs: seq<Rules.Condition>, event: Rules.Event)
    requires w.Lawful() && NormalizeEach(w, cs).Some?
    requires forall i :: 0 <= i < |cs| ==> cs[i].or.NoOr?
    ensures forall i :: 0 <= i < |cs| ==> SameMeaning(w, NormalizeEach(w, cs).value[i], cs[i], event)
  {
    if cs != [] {
      EachFirst(w, cs);
      ConditionMeaning(w, cs[0], event);
      EachMeaning(w, cs[1..], event);
      assert SameMeaning(w, NormalizeCondition(w, cs[0]).value, cs[0], event);
    }
  }

  lemma {:induction false} PathOrder()
    ensures Preorder(PathLeq)
  {
    forall a: NCond, b: NCond ensures PathLeq(a, b) || PathLeq(b, a) {
      LeqTotal(a.path, b.path);
    }
    forall a: NCond, b: NCond, c: NCond | PathLeq(a, b) && PathLeq(b, c) ensures PathLeq(a, c) {
      LeqTransitive(a.path, b.path, c.path);
    }
  }

  lemma {:induction false} RunWellFormed(run: seq<NCond>)
    requires run != [] && MergeRun(run).Some?
    requires forall i :: 0 <= i < |run| ==> run[i].path == run[0].path && WellFormed(run[i])
    ensures WellFormed(MergeRun(run).value) && MergeRun(run).value.path == run[0].path
    ensures |run| > 1 ==> AllCanonical(Exprs(run)) && Canonical(MergeRun(run).value.expr)
  {
    if |run| > 1 {
      assert AllCanonical(Exprs(run));
      CombineCanonical(AllOf, Exprs(run));
    }
  }

  /** Merging the conditions on one path keeps their meaning. */
  lemma {:induction false} RunMeaning(w: World, run: seq<NCond>, event: Rules.Event)
    requires run != [] && MergeRun(run).Some?
    requires forall i :: 0 <= i < |run| ==> run[i].path == run[0].path && WellFormed(run[i])
    ensures CondHoldsOn(w, MergeRun(run).value, event) <==> SetHolds(w, run, event)
  {
    if |run| == 1 {
      assert run == [run[0]];
    } else {
      var es, vs := Exprs(run), Rules.FoldedAt(w, event, run[0].path);
      RunWellFormed(run);
      CombineMeaning(w, AllOf, es, vs);
      RunQuantified(w, run, event);
    }
  }

  lemma {:induction false} RunQuantified(w: World, run: seq<NCond>, event: Rules.Event)
    requires run != [] && !HasAbsent(run)
    requires forall i :: 0 <= i < |run| ==> run[i].path == run[0].path
    ensures var vs := Rules.FoldedAt(w, event, run[0].path);
            SetHolds(w, run, event) <==> vs != [] && Quantified(w, AllOf, Exprs(run), vs)
  {
    var es := Exprs(run);
    assert run[0] in run;
    assert forall i :: 0 <= i < |run| ==> es[i] in es && run[i] in run;
  }

  lemma {:induction false} SetConcat(w: World, a: seq<NCond>, b: seq<NCond>, event: Rules.Event)
    ensures SetHolds(w, a + b, event) <==> SetHolds(w, a, event) && SetHolds(w, b, event)
  {
    assert forall c :: c in a + b <==> c in a || c in b;
  }

  lemma {:induction false} SetCons(w: World, c: NCond, rest: seq<NCond>, event: Rules.Event)
    ensures SetHolds(w, [c] + rest, event) <==> CondHoldsOn(w, c, event) && SetHolds(w, rest, event)
  {
    SetConcat(w, [c], rest, event);
    assert c in [c];
  }

  lemma {:induction false} MergeMeaning(w: World, conds: seq<NCond>, event: Rules.Event)
    requires Merge(conds).Some?
    requires forall i :: 0 <= i < |conds| ==> WellFormed(conds[i])
    ensures SetHolds(w, Merge(conds).value, event) <==> SetHolds(w, conds, event)
    decreases |conds|
  {
    if conds != [] {
      var run, rest := MergeUnfold(conds);
      assert forall i :: 0 <= i < |rest| ==> rest[i] == conds[|run| + i];
      MergeMeaning(w, rest, event);
      MergeStep(w, conds, run, rest, event);
    }
  }

  lemma {:induction false} MergeUnfold(conds: seq<NCond>) returns (run: seq<NCond>, rest: seq<NCond>)
    requires conds != [] && Merge(conds).Some?
    ensures conds == run + rest && run != [] && run[0] == conds[0]
    ensures forall i :: 0 <= i < |run| ==> run[i] == conds[i] && run[i].path == run[0].path
    ensures rest != [] ==> rest[0].path != run[0].path
    ensures MergeRun(run).Some? && Merge(rest).Some?
    ensures Merge(conds).value == [MergeRun(run).value] + Merge(rest).value
  {
    run, rest := conds[..RunLength(conds)], conds[RunLength(conds)..];
  }

  lemma {:induction false} MergeStep(w: World, conds: seq<NCond>, run: seq<NCond>, rest: seq<NCond>, event: Rules.Event)
    requires conds == run + rest && run != [] && MergeRun(run).Some? && Merge(rest).Some?
    requires forall i :: 0 <= i < |run| ==> run[i].path == run[0].path && WellFormed(run[i])
    requires SetHolds(w, Merge(rest).value, event) <==> SetHolds(w, rest, event)
    ensures SetHolds(w, [MergeRun(run).value] + Merge(rest).value, event) <==> SetHolds(w, conds, event)
  {
    RunMeaning(w, run, event);
    SetConcat(w, run, rest, event);
    SetCons(w, MergeRun(run).value, Merge(rest).value, event);
  }

  lemma {:induction false} NormalCons(c: NCond, ms: seq<NCond>)
    requires WellFormed(c) && NormalSet(ms)
    requires ms != [] ==> PathLeq(c, ms[0]) && c.path != ms[0].path
    ensures NormalSet([c] + ms)
  {
    forall j | 0 <= j < |ms| ensures PathLeq(c, ms[j]) && c.path != ms[j].path {
      if j > 0 {
        LeqTransitive(c.path, ms[0].path, ms[j].path);
        if ms[j].path == c.path {
          LeqAntisymmetric(c.path, ms[0].path);
        }
      }
    }
  }

  /** The merged conditions are strictly sorted by path. */
  lemma {:induction false} MergeNormal(conds: seq<NCond>)
    requires Merge(conds).Some?
    requires forall i :: 0 <= i < |conds| ==> WellFormed(conds[i])
    requires SortedBy(PathLeq, conds)
    ensures NormalSet(Merge(conds).value)
    ensures conds != [] ==> Merge(conds).value != [] && Merge(conds).value[0].path == conds[0].path
    decreases |conds|
  {
    if conds != [] {
      var run, rest := MergeUnfold(conds);
      var n := |run|;
      assert forall i :: 0 <= i < |rest| ==> rest[i] == conds[n + i];
      RunWellFormed(run);
      MergeNormal(rest);
      assert rest != [] ==> PathLeq(conds[0], conds[n]);
      NormalCons(MergeRun(run).value, Merge(rest).value);
    }
  }

  /** Sorting and merging keep the meaning. */
  lemma {:induction false} SortedMeaning(w: World, conds: seq<NCond>, event: Rules.Event)
    requires Merge(Sort(PathLeq, conds)).Some? && forall i :: 0 <= i < |conds| ==> WellFormed(conds[i])
    ensures NormalSet(Merge(Sort(PathLeq, conds)).value)
    ensures SetHolds(w, Merge(Sort(PathLeq, conds)).value, event) <==> SetHolds(w, conds, event)
  {
    var sorted := Sort(PathLeq, conds);
    PathOrder();
    SortCorrect(PathLeq, conds);
    forall i | 0 <= i < |sorted| ensures WellFormed(sorted[i]) {
      assert sorted[i] in conds;
    }
    MergeNormal(sorted);
    MergeMeaning(w, sorted, event);
    assert SetHolds(w, sorted, event) <==> SetHolds(w, conds, event);
  }

  /** normalizeConditions keeps the meaning of a condition set without alternatives. */
  lemma {:induction false} ConditionsMeaning(w: World, cs: seq<Rules.Condition>, event: Rules.Event)
    requires w.Lawful() && NormalizeConditions(w, cs).Some?
    requires forall i :: 0 <= i < |cs| ==> cs[i].or.NoOr?
    ensures NormalSet(NormalizeConditions(w, cs).value)
    ensures SetHolds(w, NormalizeConditions(w, cs).value, event) <==>
            Rules.RuleHolds(w, Rules.ConditionSet(cs), event)
  {
    var conds := NormalizeEach(w, cs).value;
    EachMeaning(w, cs, event);
    assert forall i :: 0 <= i < |cs| ==> SameMeaning(w, conds[i], cs[i], event);
    SortedMeaning(w, conds, event);
    assert forall i :: 0 <= i < |conds| ==> conds[i] in conds;
  }

  // -------------------------------------------------------- alternatives

  ghost predicate AnyHolds(w: World, sets: seq<seq<NCond>>, event: Rules.Event) {
    exists i :: 0 <= i < |sets| && SetHolds(w, sets[i], event)
  }

  ghost predicate AllNormal(sets: seq<seq<NCond>>) {
    forall i :: 0 <= i < |sets| ==> NormalSet(sets[i])
  }

  ghost predicate AllHold(w: World, cs: seq<Rules.Condition>, event: Rules.Event) {
    forall i :: 0 <= i < |cs| ==> Rules.ConditionHolds(w, cs[i], event)
  }

  lemma {:induction false} AllHoldConcat(w: World, a: seq<Rules.Condition>, b: seq<Rules.Condition>, event: Rules.Event)
    ensures AllHold(w, a + b, event) <==> AllHold(w, a, event) && AllHold(w, b, event)
  {
    if AllHold(w, a + b, event) {
      assert forall i :: 0 <= i < |a| ==> a[i] == (a + b)[i];
      assert forall i :: 0 <= i < |b| ==> b[i] == (a + b)[|a| + i];
    }
  }

  lemma {:induction false} AllHoldWithout(w: World, cs: seq<Rules.Condition>, i: nat, event: Rules.Event)
    requires i < |cs|
    ensures AllHold(w, cs, event) <==>
            Rules.ConditionHolds(w, cs[i], event) && AllHold(w, cs[..i] + cs[i + 1..], event)
  {
    var c := [cs[i]];
    AllHoldConcat(w, cs[..i], cs[i + 1..], event);
    AllHoldConcat(w, cs[..i], c + cs[i + 1..], event);
    AllHoldConcat(w, c, cs[i + 1..], event);
    assert cs == cs[..i] + (c + cs[i + 1..]);
    assert AllHold(w, c, event) <==> Rules.ConditionHolds(w, c[0], event);
  }

  lemma {:induction false} AnyHoldsConcat(w: World, a: seq<seq<NCond>>, b: seq<seq<NCond>>, event: Rules.Event)
    ensures AnyHolds(w, a + b, event) <==> AnyHolds(w, a, event) || AnyHolds(w, b, event)
  {
    assert forall i :: 0 <= i < |a| ==> a[i] == (a + b)[i];
    assert forall i :: 0 <= i < |b| ==> b[i] == (a + b)[|a| + i];
  }

  ghost predicate SomeHolds(w: World, alternatives: seq<Rules.ConditionSet>, event: Rules.Event) {
    exists j :: 0 <= j < |alternatives| && Rules.RuleHolds(w, alternatives[j], event)
  }

  /** The sets mean that plain holds together with one of the alternatives. */
  ghost predicate MeansAlternatives(w: World, sets: seq<seq<NCond>>, alternatives: seq<Rules.ConditionSet>,
                                    plain: seq<Rules.Condition>,
                                    event: Rules.Event)
  {
    AllNormal(sets) && (AnyHolds(w, sets, event) <==> AllHold(w, plain, event) && SomeHolds(w, alternatives, event))
  }

  lemma {:induction false} FirstAlternative(w: World, first: Rules.ConditionSet, rest: seq<Rules.ConditionSet>,
                                            plain: seq<Rules.Condition>,
                                            sets: seq<seq<NCond>>, more: seq<seq<NCond>>, event: Rules.Event)
    requires AllNormal(sets) && (AnyHolds(w, sets, event) <==> AllHold(w, first.conds + plain, event))
    requires MeansAlternatives(w, more, rest, plain, event)
    ensures MeansAlternatives(w, sets + more, [first] + rest, plain, event)
  {
    AllHoldConcat(w, first.conds, plain, event);
    AnyHoldsConcat(w, sets, more, event);
    assert Rules.RuleHolds(w, first, event) <==> AllHold(w, first.conds, event);
    var all := [first] + rest;
    assert forall j :: 0 <= j < |rest| ==> rest[j] == all[j + 1];
    assert all[0] == first && forall j :: 0 < j < |all| ==> all[j] == rest[j - 1];
  }

  /** normalizeSets: one of the sets holds exactly if the nested rule holds. */
  lemma {:induction false} SetsMeaning(w: World, before: nat, cs: seq<Rules.Condition>, depth: nat, event: Rules.Event,
                                       sets: seq<seq<NCond>>)
    requires w.Lawful() && depth <= MAX_OR_DEPTH && NormalizeSets(w, before, cs, depth) == Some(sets)
    ensures AllNormal(sets) && (AnyHolds(w, sets, event) <==> AllHold(w, cs, event))
    decreases MAX_OR_DEPTH - depth, 0
  {
    var or := FindOr(cs, 0);
    if or == |cs| {
      ConditionsMeaning(w, cs, event);
      assert Rules.RuleHolds(w, Rules.ConditionSet(cs), event) <==> AllHold(w, cs, event);
      assert SetHolds(w, sets[0], event) <==> AnyHolds(w, sets, event);
    } else {
      AlternativesMeaning(w, before, cs[or].or.sets, cs[..or] + cs[or + 1..], depth, event, sets);
      AllHoldWithout(w, cs, or, event);
    }
  }

  /** The condition sets of the first alternative and those of the others. */
  lemma {:induction false} AlternativesSplit(w: World, before: nat, alternatives: seq<Rules.ConditionSet>,
                                             plain: seq<Rules.Condition>, depth: nat, all: seq<seq<NCond>>)
    returns (sets: seq<seq<NCond>>, more: seq<seq<NCond>>)
    requires depth < MAX_OR_DEPTH && alternatives != []
    requires NormalizeAlternatives(w, before, alternatives, plain, depth) == Some(all)
    ensures NormalizeSets(w, before, alternatives[0].conds + plain, depth + 1) == Some(sets) && all == sets + more
    ensures NormalizeAlternatives(w, before + |sets|, alternatives[1..], plain, depth) == Some(more)
  {
    AlternativesParts(w, before, alternatives, plain, depth);
    sets := NormalizeSets(w, before, alternatives[0].conds + plain, depth + 1).value;
    more := NormalizeAlternatives(w, before + |sets|, alternatives[1..], plain, depth).value;
  }

  /** The alternatives mean what they should if the first one and the others do. */
  lemma {:induction false} MeansFirst(w: World, alternatives: seq<Rules.ConditionSet>, plain: seq<Rules.Condition>,
                                      event: Rules.Event, sets: seq<seq<NCond>>, more: seq<seq<NCond>>)
    requires alternatives != []
    requires AllNormal(sets) && (AnyHolds(w, sets, event) <==> AllHold(w, alternatives[0].conds + plain, event))
    requires MeansAlternatives(w, more, alternatives[1..], plain, event)
    ensures MeansAlternatives(w, sets + more, alternatives, plain, event)
  {
    FirstAlternative(w, alternatives[0], alternatives[1..], plain, sets, more, event);
    assert alternatives == [alternatives[0]] + alternatives[1..];
  }

  lemma {:induction false} NoAlternativesMeaning(w: World, plain: seq<Rules.Condition>, event: Rules.Event)
    ensures MeansAlternatives(w, [], [], plain, event)
  {
  }

  /** The sets of the first alternative mean what they should. */
  lemma {:induction false} FirstMeaning(w: World, before: nat, alternatives: seq<Rules.ConditionSet>,
                                        plain: seq<Rules.Condition>, depth: nat, event: Rules.Event,
                                        all: seq<seq<NCond>>)
    returns (sets: seq<seq<NCond>>, more: seq<seq<NCond>>)
    requires w.Lawful() && depth < MAX_OR_DEPTH && alternatives != []
    requires NormalizeAlternatives(w, before, alternatives, plain, depth) == Some(all)
    ensures NormalizeAlternatives(w, before + |sets|, alternatives[1..], plain, depth) == Some(more)
    ensures all == sets + more && AllNormal(sets)
    ensures AnyHolds(w, sets, event) <==> AllHold(w, alternatives[0].conds + plain, event)
    decreases MAX_OR_DEPTH - depth - 1, 1, 0
  {
    sets, more := AlternativesSplit(w, before, alternatives, plain, depth, all);
    SetsMeaning(w, before, alternatives[0].conds + plain, depth + 1, event, sets);
  }

  lemma {:induction false} RestMeaning(w: World, before: nat, alternatives: seq<Rules.ConditionSet>,
                                       plain: seq<Rules.Condition>, depth: nat, event: Rules.Event,
                                       more: seq<seq<NCond>>)
    requires w.Lawful() && depth < MAX_OR_DEPTH && alternatives != []
    requires NormalizeAlternatives(w, before, alternatives[1..], plain, depth) == Some(more)
    ensures MeansAlternatives(w, more, alternatives[1..], plain, event)
    decreases MAX_OR_DEPTH - depth - 1, 2, |alternatives|, 0
  {
    AlternativesMeaning(w, before, alternatives[1..], plain, depth, event, more);
  }

  lemma {:induction false} AlternativesMeaning(w: World, before: nat, alternatives: seq<Rules.ConditionSet>,
                                               plain: seq<Rules.Condition>, depth: nat, event: Rules.Event,
                                               all: seq<seq<NCond>>)
    requires w.Lawful() && depth < MAX_OR_DEPTH
    requires NormalizeAlternatives(w, before, alternatives, plain, depth) == Some(all)
    ensures MeansAlternatives(w, all, alternatives, plain, event)
    decreases MAX_OR_DEPTH - depth - 1, 2, |alternatives|, 1
  {
    if alternatives == [] {
      NoAlternativesMeaning(w, plain, event);
    } else {
      var sets, more := FirstMeaning(w, before, alternatives, plain, depth, event, all);
      RestMeaning(w, before + |sets|, alternatives, plain, depth, event, more);
      MeansFirst(w, alternatives, plain, event, sets, more);
    }
  }

  /**
   * Normalization preserves meaning: the sets of a valid rule are normal, and
   * an event matches one of them exactly if it matches the rule as written.
   */
  lemma {:induction false} RuleMeaning(w: World, rule: Rules.ConditionSet, event: Rules.Event)
    requires w.Lawful() && NormalizeRule(w, rule).Some?
    ensures AllNormal(NormalizeRule(w, rule).value)
    ensures AnyHolds(w, NormalizeRule(w, rule).value, event) <==> Rules.RuleHolds(w, rule, event)
  {
    SetsMeaning(w, 0, rule.conds, 0, event, NormalizeRule(w, rule).value);
  }

  // --------------------------------------------------------------- limits

  lemma {:induction false} SetsLimit(w: World, before: nat, cs: seq<Rules.Condition>, depth: nat)
    requires depth <= MAX_OR_DEPTH && NormalizeSets(w, before, cs, depth).Some?
    ensures |NormalizeSets(w, before, cs, depth).value| >= 1
    ensures |NormalizeSets(w, before, cs, depth).value| == 1 ||
            before + |NormalizeSets(w, before, cs, depth).value| <= MAX_CONDITION_SETS
    decreases MAX_OR_DEPTH - depth, 0
  {
    var or := FindOr(cs, 0);
    if or < |cs| {
      AlternativesLimit(w, before, cs[or].or.sets, cs[..or] + cs[or + 1..], depth);
    }
  }

  lemma {:induction false} AlternativesLimit(w: World, before: nat, alternatives: seq<Rules.ConditionSet>,
                                             plain: seq<Rules.Condition>, depth: nat)
    requires depth < MAX_OR_DEPTH
    requires NormalizeAlternatives(w, before, alternatives, plain, depth).Some?
    ensures |NormalizeAlternatives(w, before, alternatives, plain, depth).value| >= |alternatives|
    ensures alternatives != [] ==>
      before + |NormalizeAlternatives(w, before, alternatives, plain, depth).value| <= MAX_CONDITION_SETS
    decreases MAX_OR_DEPTH - depth - 1, 1, |alternatives|
  {
    if alternatives != [] {
      var cs := alternatives[0].conds + plain;
      SetsLimit(w, before, cs, depth + 1);
      AlternativesLimit(w, before + |NormalizeSets(w, before, cs, depth + 1).value|, alternatives[1..], plain, depth);
    }
  }

  /** A valid rule combines into at least one and at most 1024 condition sets. */
  lemma {:induction false} RuleLimit(w: World, rule: Rules.ConditionSet)
    requires NormalizeRule(w, rule).Some?
    ensures 1 <= |NormalizeRule(w, rule).value| <= 1024
  {
    SetsLimit(w, 0, rule.conds, 0);
  }
}
