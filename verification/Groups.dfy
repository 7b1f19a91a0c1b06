/**
 * A group: all conditions leaving one state on one path, which share one
 * value index, and how they are evaluated together (engine.go).
 */
module Groups {
  import opened ByteStrings
  import opened Sorting
  import opened Expressions
  import opened Semantics
  import opened Formulas
  import opened ValueIndex

  /**
   * A condition leading to the state next. neg is 1 + its position in the
   * negations of the group if the leaves it is registered at refute it, or 0.
   * Without a formula it holds whenever a leaf it is registered at matches.
   */
  datatype Edge = Edge(id: nat, neg: nat, f: Option<Formula>, next: nat)

  /** Leaves are numbered; the edges registered at a leaf are in registered. */
  datatype Group = Group(
    path: Bytes,
    leafIds: LeafIds,
    edges: map<Bytes, Edge>,
    leaves: seq<Expr>,
    registered: seq<seq<Edge>>,
    neg: seq<Edge>,
    index: ValueIndex.Index)

  // ------------------------------------------------------------ invariant

  ghost predicate LeafTable(g: Group) {
    && |g.registered| == |g.leaves|
    && (forall i :: 0 <= i < |g.leaves| ==>
          g.leaves[i].Leaf? && Key(g.leaves[i]) in g.leafIds && g.leafIds[Key(g.leaves[i])] == i)
    && (forall k :: k in g.leafIds ==> g.leafIds[k] < |g.leaves| && Key(g.leaves[g.leafIds[k]]) == k)
  }

  /** The condition the key k stands for. */
  function ExprOf(k: Bytes): Expr {
    var e := ParseKey(k);
    if e.Some? then e.value else Absent
  }

  ghost predicate GoodKey(w: World, g: Group, k: Bytes) {
    Canonical(ExprOf(k)) && Key(ExprOf(k)) == k && GoodExpr(w, ExprOf(k)) && Has(g.leafIds, ExprOf(k))
  }

  /** The compiled condition of the key k. */
  ghost function FormulaAt(g: Group, k: Bytes): Formula
    requires Has(g.leafIds, ExprOf(k))
  {
    FormulaOf(g.leafIds, ExprOf(k))
  }

  /** The leaves an edge is registered at. */
  ghost function RegisteredLeaves(e: Edge, x: Expr, f: Formula): set<nat> {
    if Monotone(x) then Triggers(f) else if e.neg != 0 && Refutable(f) then Refuting(f) else {}
  }

  ghost predicate GoodEdge(g: Group, k: Bytes)
    requires k in g.edges && Has(g.leafIds, ExprOf(k))
  {
    var e, x, f := g.edges[k], ExprOf(k), FormulaAt(g, k);
    && e.f == (if Simple(x) then None else Some(f))
    && (forall l :: 0 <= l < |g.registered| ==> (e in g.registered[l] <==> l in RegisteredLeaves(e, x, f)))
    && (if Monotone(x) then e.neg == 0
        else e in g.neg && (e.neg != 0 ==> e.neg <= |g.neg| && g.neg[e.neg - 1] == e && Refutable(f)))
  }

  ghost predicate IsEdge(g: Group, e: Edge) {
    exists k :: k in g.edges && g.edges[k] == e
  }

  ghost predicate IsNegation(g: Group, e: Edge) {
    exists k :: k in g.edges && g.edges[k] == e && !Monotone(ExprOf(k))
  }

  ghost predicate GoodEdges(w: World, g: Group) {
    forall k :: k in g.edges ==> GoodKey(w, g, k) && GoodEdge(g, k)
  }

  ghost predicate UniqueKeys(g: Group) {
    forall k, k' :: k in g.edges && k' in g.edges && g.edges[k].id == g.edges[k'].id ==> k == k'
  }

  ghost predicate RegisteredKnown(g: Group) {
    forall l, e :: 0 <= l < |g.registered| && e in g.registered[l] ==> IsEdge(g, e)
  }

  ghost predicate NegationsKnown(g: Group) {
    Distinct(g.neg) && forall e :: e in g.neg ==> IsNegation(g, e)
  }

  ghost predicate EdgeTable(w: World, g: Group) {
    GoodEdges(w, g) && UniqueKeys(g) && RegisteredKnown(g) && NegationsKnown(g)
  }

  ghost predicate Valid(w: World, g: Group) {
    && LeafTable(g) && EdgeTable(w, g)
    && Represents(w, g.index, g.leaves) && GoodLeaves(w, g.leaves)
  }

  /** The condition of e holds for the values vs. */
  ghost predicate Follows(w: World, g: Group, vs: seq<Bytes>, e: Edge) {
    exists k :: k in g.edges && g.edges[k] == e && Holds(w, ExprOf(k), vs)
  }

  // ----------------------------------------------------------------- hits

  /** The leaves the values vs match. */
  ghost predicate AreHits(w: World, g: Group, vs: seq<Bytes>, hits: seq<nat>) {
    forall l: nat :: l in hits <==> l < |g.leaves| && Holds(w, g.leaves[l], vs)
  }

  ghost predicate ValuesHit(w: World, ls: seq<Expr>, vs: seq<Bytes>, l: nat) {
    exists v :: v in vs && ValueHit(w, ls, v, l)
  }

  lemma {:induction false} ValuesHitAppend(w: World, ls: seq<Expr>, vs: seq<Bytes>, v: Bytes, l: nat)
    ensures ValuesHit(w, ls, vs + [v], l) <==> ValuesHit(w, ls, vs, l) || ValueHit(w, ls, v, l)
  {
    assert forall u :: u in vs + [v] <==> u in vs || u == v;
  }

  predicate IdLeq(a: nat, b: nat) {
    a <= b
  }

  predicate SameId(a: nat, b: nat) {
    a == b
  }

  /** slices.Sort and slices.Compact on leaf ids. */
  lemma {:induction false} CompactIds(ids: seq<nat>)
    ensures forall l :: l in Compact(SameId, Sort(IdLeq, ids)) <==> l in ids
  {
    var s := Sort(IdLeq, ids);
    SortCorrect(IdLeq, ids);
    CompactMembers(SameId, s);
    forall l | l in ids ensures l in Compact(SameId, s) {
      assert l in s;
      var i :| 0 <= i < |s| && s[i] == l;
      var y := CompactCovers(SameId, s, i);
    }
  }

  method LookUpAll(w: World, g: Group, vs: seq<Bytes>) returns (hits: seq<nat>)
    requires w.Lawful() && Valid(w, g)
    ensures forall l: nat :: l in hits <==> ValuesHit(w, g.leaves, vs, l)
  {
    hits := [];
    for i := 0 to |vs|
      invariant forall l: nat :: l in hits <==> ValuesHit(w, g.leaves, vs[..i], l)
    {
      assert vs[..i + 1] == vs[..i] + [vs[i]];
      ghost var before := hits;
      hits := Collect(w, g.index, vs[i], hits, g.leaves);
      forall l: nat ensures l in hits <==> ValuesHit(w, g.leaves, vs[..i + 1], l) {
        ValuesHitAppend(w, g.leaves, vs[..i], vs[i], l);
      }
    }
    assert vs[..|vs|] == vs;
  }

  /** Looks up every value once and adds the exists leaf, which any value matches. */
  method CollectHits(w: World, g: Group, vs: seq<Bytes>) returns (hits: seq<nat>)
    requires w.Lawful() && Valid(w, g) && vs != []
    ensures AreHits(w, g, vs, hits)
  {
    hits := LookUpAll(w, g, vs);
    ghost var found := hits;
    if g.index.exists_.Some? {
      hits := hits + [g.index.exists_.value];
    }
    forall l: nat ensures l in hits <==> l < |g.leaves| && Holds(w, g.leaves[l], vs) {
      HitMeaning(w, g, vs, l);
    }
    CompactIds(hits);
    hits := Compact(SameId, Sort(IdLeq, hits));
  }

  lemma {:induction false} HitMeaning(w: World, g: Group, vs: seq<Bytes>, l: nat)
    requires Valid(w, g) && vs != []
    ensures l < |g.leaves| && Holds(w, g.leaves[l], vs) <==>
            ValuesHit(w, g.leaves, vs, l) || g.index.exists_ == Some(l)
  {
    assert g.index.exists_ == Some(l) <==> IsLeaf(g.leaves, l, LeafExists, []);
    if l < |g.leaves| && g.leaves[l].kind == LeafExists {
      assert vs[0] in vs && LeafMatches(w, LeafExists, g.leaves[l].value, vs[0]);
      assert GoodLeaf(w, g.leaves[l].kind, g.leaves[l].value);
    }
  }

  ghost function SetOf(hits: seq<nat>): set<nat> {
    set l | l in hits
  }

  lemma {:induction false} HitsExact(w: World, g: Group, vs: seq<Bytes>, hits: seq<nat>)
    requires LeafTable(g) && AreHits(w, g, vs, hits)
    ensures Exact(w, g.leafIds, vs, SetOf(hits))
  {
    forall kind, value | Key(Leaf(kind, value)) in g.leafIds
      ensures g.leafIds[Key(Leaf(kind, value))] in SetOf(hits) <==> Holds(w, Leaf(kind, value), vs)
    {
      var i := g.leafIds[Key(Leaf(kind, value))];
      KeyInjective(g.leaves[i], Leaf(kind, value));
    }
  }

  // ----------------------------------------------------------- candidates

  ghost predicate IsCandidate(g: Group, hits: seq<nat>, e: Edge) {
    exists l :: l in hits && l < |g.registered| && e in g.registered[l]
  }

  lemma {:induction false} CandidateAppend(g: Group, hits: seq<nat>, l: nat)
    ensures forall e :: IsCandidate(g, hits + [l], e) <==>
              IsCandidate(g, hits, e) || (l < |g.registered| && e in g.registered[l])
  {
    assert forall m :: m in hits + [l] <==> m in hits || m == l;
  }

  /** The edges registered at the hits. */
  method Candidates(g: Group, hits: seq<nat>) returns (cand: seq<Edge>)
    requires forall l :: l in hits ==> l < |g.registered|
    ensures forall e :: e in cand <==> IsCandidate(g, hits, e)
  {
    cand := [];
    for i := 0 to |hits|
      invariant forall e :: e in cand <==> IsCandidate(g, hits[..i], e)
    {
      assert hits[..i + 1] == hits[..i] + [hits[i]] && hits[i] in hits;
      CandidateAppend(g, hits[..i], hits[i]);
      cand := cand + g.registered[hits[i]];
    }
    assert hits[..|hits|] == hits;
  }

  /** Position p of the negations is refuted by a candidate. */
  ghost predicate Refutes(cand: seq<Edge>, n: nat, p: nat) {
    exists e :: e in cand && e.neg == p + 1 && p < n
  }

  /** Marks the negations the candidates refute, among the first n, and drops all negations. */
  method DropNegations(cand: seq<Edge>, n: nat) returns (kept: seq<Edge>, refuted: set<nat>)
    ensures forall e :: e in kept <==> e in cand && e.neg == 0
    ensures forall p: nat :: p in refuted <==> Refutes(cand, n, p)
  {
    kept, refuted := [], {};
    for i := 0 to |cand|
      invariant forall e :: e in kept <==> e in cand[..i] && e.neg == 0
      invariant forall p: nat :: p in refuted <==> Refutes(cand[..i], n, p)
    {
      var e := cand[i];
      assert forall d :: d in cand[..i + 1] <==> d in cand[..i] || d == e;
      forall p: nat ensures Refutes(cand[..i + 1], n, p) <==> Refutes(cand[..i], n, p) || (e.neg == p + 1 && p < n) {
      }
      if e.neg != 0 {
        if e.neg <= n {
          refuted := refuted + {e.neg - 1};
        }
      } else {
        kept := kept + [e];
      }
    }
    assert cand[..|cand|] == cand;
  }

  predicate EdgeLeq(a: Edge, b: Edge) {
    a.id <= b.id
  }

  predicate SameEdge(a: Edge, b: Edge) {
    a.id == b.id
  }

  ghost predicate UniqueIds(es: seq<Edge>) {
    forall a, b :: a in es && b in es && a.id == b.id ==> a == b
  }

  /** Sorting by id and dropping duplicates leaves every edge once. */
  lemma {:induction false} CompactEdges(es: seq<Edge>)
    requires UniqueIds(es)
    ensures forall e :: e in Compact(SameEdge, Sort(EdgeLeq, es)) <==> e in es
    ensures Distinct(Compact(SameEdge, Sort(EdgeLeq, es)))
  {
    var s := Sort(EdgeLeq, es);
    SortCorrect(EdgeLeq, es);
    CompactMembers(SameEdge, s);
    CompactStrict(EdgeLeq, SameEdge, s);
    forall e | e in es ensures e in Compact(SameEdge, s) {
      assert e in s;
      var i :| 0 <= i < |s| && s[i] == e;
      var y := CompactCovers(SameEdge, s, i);
      assert y in s && y in es;
    }
  }

  predicate Passes(e: Edge, hits: set<nat>) {
    e.f.None? || Eval(e.f.value, hits)
  }

  /** Keeps the candidates whose formula holds. */
  method EvalCandidates(cand: seq<Edge>, hits: set<nat>) returns (kept: seq<Edge>)
    requires Distinct(cand)
    ensures Distinct(kept) && forall e :: e in kept <==> e in cand && Passes(e, hits)
  {
    kept := [];
    for i := 0 to |cand|
      invariant Distinct(kept) && forall e :: e in kept <==> e in cand[..i] && Passes(e, hits)
    {
      var e := cand[i];
      assert forall d :: d in cand[..i + 1] <==> d in cand[..i] || d == e;
      assert e !in cand[..i];
      if Passes(e, hits) {
        kept := kept + [e];
      }
    }
    assert cand[..|cand|] == cand;
  }

  /** Position p holds an open negation: one that is not refuted, or whose formula holds. */
  predicate Open(neg: seq<Edge>, refuted: set<nat>, hits: set<nat>, p: nat) {
    p < |neg| && p !in refuted && (neg[p].neg != 0 || Passes(neg[p], hits))
  }

  ghost predicate IsOpen(neg: seq<Edge>, refuted: set<nat>, hits: set<nat>, n: nat, e: Edge) {
    exists p: nat :: p < n && Open(neg, refuted, hits, p) && neg[p] == e
  }

  /** Appends the negations that hold. */
  method OpenNegations(neg: seq<Edge>, refuted: set<nat>, hits: set<nat>) returns (es: seq<Edge>)
    requires Distinct(neg)
    ensures Distinct(es) && forall e :: e in es <==> IsOpen(neg, refuted, hits, |neg|, e)
  {
    es := [];
    for p := 0 to |neg|
      invariant Distinct(es) && forall e :: e in es <==> IsOpen(neg, refuted, hits, p, e)
    {
      forall e ensures IsOpen(neg, refuted, hits, p + 1, e) <==>
                       IsOpen(neg, refuted, hits, p, e) || (Open(neg, refuted, hits, p) && e == neg[p])
      {
      }
      assert !IsOpen(neg, refuted, hits, p, neg[p]);
      if Open(neg, refuted, hits, p) {
        es := es + [neg[p]];
      }
    }
  }

  // ------------------------------------------------------------ evalGroup

  /** The condition of the key k holds for the hits. */
  ghost predicate HoldsAt(g: Group, hits: set<nat>, k: Bytes)
    requires Has(g.leafIds, ExprOf(k))
  {
    Eval(FormulaAt(g, k), hits)
  }

  /** A monotone condition is a candidate that passes exactly if it holds. */
  lemma {:induction false} PositiveCorrect(w: World, g: Group, hits: seq<nat>, k: Bytes)
    requires Valid(w, g) && k in g.edges && Monotone(ExprOf(k))
    requires forall l :: l in hits ==> l < |g.registered|
    ensures GoodKey(w, g, k)
    ensures IsCandidate(g, hits, g.edges[k]) && Passes(g.edges[k], SetOf(hits)) <==> HoldsAt(g, SetOf(hits), k)
  {
    assert GoodKey(w, g, k) && GoodEdge(g, k);
    var e, x, f, hitSet := g.edges[k], ExprOf(k), FormulaAt(g, k), SetOf(hits);
    assert IsCandidate(g, hits, e) <==> Triggers(f) * hitSet != {} by {
      CandidateTriggers(g, hits, k);
    }
    if Simple(x) {
      SimpleTriggers(g.leafIds, x, hitSet);
    } else if Eval(f, hitSet) {
      MonotoneCompiles(g.leafIds, x);
      TriggersMissNothing(f, hitSet);
    }
  }

  lemma {:induction false} CandidateTriggers(g: Group, hits: seq<nat>, k: Bytes)
    requires k in g.edges && Has(g.leafIds, ExprOf(k)) && GoodEdge(g, k)
    requires forall l :: l in hits ==> l < |g.registered|
    ensures IsCandidate(g, hits, g.edges[k]) <==>
            RegisteredLeaves(g.edges[k], ExprOf(k), FormulaAt(g, k)) * SetOf(hits) != {}
  {
    var ls := RegisteredLeaves(g.edges[k], ExprOf(k), FormulaAt(g, k));
    if IsCandidate(g, hits, g.edges[k]) {
      var l :| l in hits && l < |g.registered| && g.edges[k] in g.registered[l];
      assert l in ls * SetOf(hits);
    }
    if ls * SetOf(hits) != {} {
      var l :| l in ls * SetOf(hits);
      assert l in hits;
    }
  }

  ghost predicate AreRefuted(g: Group, hits: seq<nat>, refuted: set<nat>) {
    forall p: nat :: p in refuted <==> exists e :: IsCandidate(g, hits, e) && e.neg == p + 1 && p < |g.neg|
  }

  /** A negation is open exactly if it holds: marking agrees with evaluating. */
  lemma {:induction false} NegationCorrect(w: World, g: Group, hits: seq<nat>, refuted: set<nat>, k: Bytes)
    requires Valid(w, g) && k in g.edges && !Monotone(ExprOf(k)) && AreRefuted(g, hits, refuted)
    requires forall l :: l in hits ==> l < |g.registered|
    ensures GoodKey(w, g, k)
    ensures IsOpen(g.neg, refuted, SetOf(hits), |g.neg|, g.edges[k]) <==> HoldsAt(g, SetOf(hits), k)
  {
    assert GoodKey(w, g, k) && GoodEdge(g, k);
    var e := g.edges[k];
    var p: nat :| p < |g.neg| && g.neg[p] == e;
    OpenOnce(g.neg, refuted, SetOf(hits), p);
    PositionOf(w, g, hits, refuted, k, p);
    NegationMarked(g, hits, k);
  }

  lemma {:induction false} OpenOnce(neg: seq<Edge>, refuted: set<nat>, hits: set<nat>, p: nat)
    requires Distinct(neg) && p < |neg|
    ensures IsOpen(neg, refuted, hits, |neg|, neg[p]) <==> Open(neg, refuted, hits, p)
  {
  }

  /** A marked negation is refuted by a candidate exactly if it does not hold. */
  lemma {:induction false} NegationMarked(g: Group, hits: seq<nat>, k: Bytes)
    requires k in g.edges && !Monotone(ExprOf(k)) && Has(g.leafIds, ExprOf(k)) && GoodEdge(g, k)
    requires forall l :: l in hits ==> l < |g.registered|
    ensures g.edges[k].f == Some(FormulaAt(g, k))
    ensures g.edges[k].neg != 0 ==> (IsCandidate(g, hits, g.edges[k]) <==> !HoldsAt(g, SetOf(hits), k))
  {
    SimpleMonotone(ExprOf(k));
    if g.edges[k].neg != 0 {
      RefutedByLeaves(FormulaAt(g, k), SetOf(hits));
      CandidateTriggers(g, hits, k);
    }
  }

  lemma {:induction false} SimpleMonotone(x: Expr)
    ensures Simple(x) ==> Monotone(x)
  {
  }

  /** The candidates that carry the position of a negation are that negation. */
  lemma {:induction false} PositionOf(w: World, g: Group, hits: seq<nat>, refuted: set<nat>, k: Bytes, p: nat)
    requires Valid(w, g) && k in g.edges && !Monotone(ExprOf(k)) && AreRefuted(g, hits, refuted)
    requires p < |g.neg| && g.neg[p] == g.edges[k]
    ensures p in refuted <==> g.edges[k].neg != 0 && IsCandidate(g, hits, g.edges[k])
  {
    NegationPosition(w, g, k, p);
    OnlyCandidate(w, g, hits, p);
    RefutedIs(g, hits, refuted, p);
  }

  lemma {:induction false} RefutedIs(g: Group, hits: seq<nat>, refuted: set<nat>, p: nat)
    requires AreRefuted(g, hits, refuted) && p < |g.neg|
    requires g.neg[p].neg != 0 ==> g.neg[p].neg == p + 1
    requires forall d :: IsCandidate(g, hits, d) && d.neg == p + 1 ==> d == g.neg[p]
    ensures p in refuted <==> g.neg[p].neg != 0 && IsCandidate(g, hits, g.neg[p])
  {
  }

  lemma {:induction false} OnlyCandidate(w: World, g: Group, hits: seq<nat>, p: nat)
    requires GoodEdges(w, g) && RegisteredKnown(g) && p < |g.neg|
    ensures forall d :: IsCandidate(g, hits, d) && d.neg == p + 1 ==> d == g.neg[p]
  {
    forall d | IsCandidate(g, hits, d) && d.neg == p + 1 ensures d == g.neg[p] {
      CandidatePosition(w, g, hits, d);
    }
  }

  lemma {:induction false} NegationPosition(w: World, g: Group, k: Bytes, p: nat)
    requires Valid(w, g) && k in g.edges && !Monotone(ExprOf(k)) && p < |g.neg| && g.neg[p] == g.edges[k]
    ensures g.edges[k].neg != 0 ==> g.edges[k].neg == p + 1
  {
    assert GoodKey(w, g, k) && GoodEdge(g, k);
  }

  /** The condition a candidate stands for. */
  lemma {:induction false} CandidateKey(g: Group, hits: seq<nat>, d: Edge) returns (k: Bytes)
    requires RegisteredKnown(g) && IsCandidate(g, hits, d)
    ensures k in g.edges && g.edges[k] == d
  {
    var l :| l in hits && l < |g.registered| && d in g.registered[l];
    assert IsEdge(g, d);
    k :| k in g.edges && g.edges[k] == d;
  }

  lemma {:induction false} EdgeIsGood(w: World, g: Group, k: Bytes)
    requires GoodEdges(w, g) && k in g.edges
    ensures Has(g.leafIds, ExprOf(k)) && GoodEdge(g, k)
  {
    assert GoodKey(w, g, k);
  }

  lemma {:induction false} EdgePosition(g: Group, k: Bytes)
    requires k in g.edges && Has(g.leafIds, ExprOf(k)) && GoodEdge(g, k)
    ensures var e := g.edges[k]; e.neg != 0 ==> e.neg <= |g.neg| && g.neg[e.neg - 1] == e
  {
  }

  lemma {:induction false} CandidatePosition(w: World, g: Group, hits: seq<nat>, d: Edge)
    requires GoodEdges(w, g) && RegisteredKnown(g) && IsCandidate(g, hits, d) && d.neg != 0
    ensures d.neg <= |g.neg| && g.neg[d.neg - 1] == d
  {
    var k := CandidateKey(g, hits, d);
    EdgeIsGood(w, g, k);
    EdgePosition(g, k);
  }

  /** Without negations no candidate is one. */
  lemma {:induction false} NoNegations(w: World, g: Group, hits: seq<nat>)
    requires Valid(w, g) && g.neg == []
    ensures forall e :: IsCandidate(g, hits, e) ==> e.neg == 0
  {
    forall e | IsCandidate(g, hits, e) ensures e.neg == 0 {
      if e.neg != 0 {
        CandidatePosition(w, g, hits, e);
      }
    }
  }

  /** A candidate that is no negation is a monotone condition. */
  lemma {:induction false} CandidateMonotone(w: World, g: Group, hits: seq<nat>, e: Edge) returns (k: Bytes)
    requires Valid(w, g) && IsCandidate(g, hits, e) && e.neg == 0
    ensures k in g.edges && g.edges[k] == e && Monotone(ExprOf(k))
  {
    k := CandidateKey(g, hits, e);
    assert GoodKey(w, g, k) && GoodEdge(g, k);
  }

  lemma {:induction false} CandidateIds(w: World, g: Group, hits: seq<nat>, cand: seq<Edge>)
    requires Valid(w, g) && forall e :: e in cand ==> IsCandidate(g, hits, e)
    ensures UniqueIds(cand)
  {
    forall a, b | a in cand && b in cand && a.id == b.id ensures a == b {
      assert IsEdge(g, a) && IsEdge(g, b);
    }
  }

  /** The edges followed are those of the monotone conditions and of the negations that hold. */
  lemma {:induction false} EvalCorrect(w: World, g: Group, vs: seq<Bytes>, hits: seq<nat>, refuted: set<nat>, e: Edge)
    requires Valid(w, g) && AreHits(w, g, vs, hits) && AreRefuted(g, hits, refuted)
    ensures Follows(w, g, vs, e) <==>
            || (IsCandidate(g, hits, e) && e.neg == 0 && Passes(e, SetOf(hits)))
            || IsOpen(g.neg, refuted, SetOf(hits), |g.neg|, e)
  {
    HitsExact(w, g, vs, hits);
    if Follows(w, g, vs, e) {
      var k :| k in g.edges && g.edges[k] == e && Holds(w, ExprOf(k), vs);
      HoldsAtKey(w, g, vs, hits, refuted, k);
    }
    if IsCandidate(g, hits, e) && e.neg == 0 && Passes(e, SetOf(hits)) {
      var k := CandidateMonotone(w, g, hits, e);
      HoldsAtKey(w, g, vs, hits, refuted, k);
    }
    if IsOpen(g.neg, refuted, SetOf(hits), |g.neg|, e) {
      assert IsNegation(g, e);
      var k :| k in g.edges && g.edges[k] == e && !Monotone(ExprOf(k));
      HoldsAtKey(w, g, vs, hits, refuted, k);
    }
  }

  lemma {:induction false} HoldsAtKey(w: World, g: Group, vs: seq<Bytes>, hits: seq<nat>, refuted: set<nat>, k: Bytes)
    requires Valid(w, g) && AreHits(w, g, vs, hits) && AreRefuted(g, hits, refuted) && k in g.edges
    requires Exact(w, g.leafIds, vs, SetOf(hits))
    ensures var e := g.edges[k];
            Holds(w, ExprOf(k), vs) <==>
            if Monotone(ExprOf(k)) then IsCandidate(g, hits, e) && e.neg == 0 && Passes(e, SetOf(hits))
            else IsOpen(g.neg, refuted, SetOf(hits), |g.neg|, e)
  {
    assert GoodKey(w, g, k) && GoodEdge(g, k);
    EvalAgrees(w, g.leafIds, ExprOf(k), vs, SetOf(hits));
    if Monotone(ExprOf(k)) {
      PositiveCorrect(w, g, hits, k);
    } else {
      NegationCorrect(w, g, hits, refuted, k);
    }
  }

  lemma {:induction false} PartsDisjoint(w: World, g: Group, hits: seq<nat>, refuted: set<nat>, e: Edge)
    requires Valid(w, g) && IsCandidate(g, hits, e) && e.neg == 0
    ensures !IsOpen(g.neg, refuted, SetOf(hits), |g.neg|, e)
  {
    var k := CandidateMonotone(w, g, hits, e);
    MonotoneNotNegation(g, k);
  }

  lemma {:induction false} MonotoneNotNegation(g: Group, k: Bytes)
    requires UniqueKeys(g) && NegationsKnown(g) && k in g.edges && Monotone(ExprOf(k))
    ensures g.edges[k] !in g.neg
  {
    forall d | d in g.neg ensures d != g.edges[k] {
      var k' :| k' in g.edges && g.edges[k'] == d && !Monotone(ExprOf(k'));
    }
  }

  /** Marks and drops the negations among the candidates, if the group has any. */
  method SplitCandidates(w: World, g: Group, ghost hits: seq<nat>, all: seq<Edge>)
    returns (cand: seq<Edge>, refuted: set<nat>)
    requires Valid(w, g) && forall e :: e in all <==> IsCandidate(g, hits, e)
    ensures forall e :: e in cand <==> IsCandidate(g, hits, e) && e.neg == 0
    ensures AreRefuted(g, hits, refuted)
  {
    if |g.neg| > 0 {
      cand, refuted := DropNegations(all, |g.neg|);
      forall p: nat ensures Refutes(all, |g.neg|, p) <==>
                            exists e :: IsCandidate(g, hits, e) && e.neg == p + 1 && p < |g.neg|
      {
      }
    } else {
      NoNegations(w, g, hits);
      return all, {};
    }
  }

  /** evalGroup: the edges whose condition holds for the values vs, each once. */
  method EvalGroup(w: World, g: Group, vs: seq<Bytes>) returns (es: seq<Edge>)
    requires w.Lawful() && Valid(w, g) && vs != []
    ensures Distinct(es) && forall e :: e in es <==> Follows(w, g, vs, e)
  {
    var hits := CollectHits(w, g, vs);
    var all := Candidates(g, hits);
    var cand, refuted := SplitCandidates(w, g, hits, all);
    CandidateIds(w, g, hits, cand);
    CompactEdges(cand);
    var hitSet := set l | l in hits;
    var positive := EvalCandidates(Compact(SameEdge, Sort(EdgeLeq, cand)), hitSet);
    var negative := OpenNegations(g.neg, refuted, hitSet);
    es := positive + negative;
    forall e ensures e in es <==> Follows(w, g, vs, e) {
      EvalCorrect(w, g, vs, hits, refuted, e);
    }
    forall e | e in positive ensures e !in negative {
      PartsDisjoint(w, g, hits, refuted, e);
    }
  }
}
