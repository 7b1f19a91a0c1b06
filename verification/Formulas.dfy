/** Compiled conditions: formulas over the leaves of a group (engine.go). */
module Formulas {
  import opened ByteStrings
  import opened Expressions
  import opened Semantics

  datatype Formula = FLeaf(leaf: nat) | FNary(op: Op, subs: seq<Formula>) | FNot(sub: Formula)

  /** Whether f holds if exactly the leaves in hits match. */
  predicate Eval(f: Formula, hits: set<nat>)
    decreases f
  {
    match f
    case FLeaf(leaf) => leaf in hits
    case FNary(AnyOf, subs) => exists s :: s in subs && Eval(s, hits)
    case FNary(AllOf, subs) => forall s :: s in subs ==> Eval(s, hits)
    case FNot(sub) => !Eval(sub, hits)
  }

  predicate AllLeaves(subs: seq<Formula>) {
    forall s :: s in subs ==> s.FLeaf?
  }

  /** Whether f is the negation of a leaf or of any of several leaves. */
  predicate Refutable(f: Formula) {
    f.FNot? && (f.sub.FLeaf? || (f.sub.FNary? && f.sub.op == AnyOf && AllLeaves(f.sub.subs)))
  }

  /** The leaves that refute f, for a refutable f. */
  function Refuting(f: Formula): set<nat>
    requires Refutable(f)
  {
    if f.sub.FLeaf? then {f.sub.leaf} else set s | s in f.sub.subs :: s.leaf
  }

  /** triggers: f can only hold if one of these leaves matches. */
  function Triggers(f: Formula): set<nat>
    decreases f, 1
  {
    match f
    case FLeaf(leaf) => {leaf}
    case FNary(AllOf, subs) => if subs == [] then {} else Fewest(subs[1..], Triggers(subs[0]))
    case FNary(AnyOf, subs) => AllTriggers(subs)
    case FNot(_) => {}
  }

  /** The smallest set of triggers, the first one of several. */
  function Fewest(subs: seq<Formula>, best: set<nat>): set<nat>
    decreases subs, 0
  {
    if subs == [] then best
    else
      var t := Triggers(subs[0]);
      Fewest(subs[1..], if |t| < |best| then t else best)
  }

  function AllTriggers(subs: seq<Formula>): set<nat>
    decreases subs, 0
  {
    if subs == [] then {} else Triggers(subs[0]) + AllTriggers(subs[1..])
  }

  /** monotone: e contains no negation. */
  predicate Monotone(e: Expr)
    decreases e
  {
    match e
    case Leaf(_, _) => true
    case Nary(_, subs) => forall s :: s in subs ==> Monotone(s)
    case Not(_) => false
    case Absent => true
  }

  /** simple: e holds as soon as any of its leaves matches. */
  predicate Simple(e: Expr) {
    e.Leaf? || (HasOp(e, AnyOf) && forall s :: s in e.subs ==> s.Leaf?)
  }

  predicate MonotoneFormula(f: Formula)
    decreases f
  {
    match f
    case FLeaf(_) => true
    case FNary(op, subs) => subs != [] && forall s :: s in subs ==> MonotoneFormula(s)
    case FNot(_) => false
  }

  /** A monotone formula that holds has a trigger among the hits. */
  lemma {:induction false} TriggersMissNothing(f: Formula, hits: set<nat>)
    requires MonotoneFormula(f) && Eval(f, hits)
    ensures Triggers(f) * hits != {}
    decreases f, 1
  {
    match f
    case FLeaf(leaf) => assert leaf in Triggers(f) * hits;
    case FNary(AnyOf, subs) =>
      var s :| s in subs && Eval(s, hits);
      var i :| 0 <= i < |subs| && subs[i] == s;
      TriggersMissNothing(s, hits);
      TriggersOfMember(subs, i);
      var l :| l in Triggers(s) * hits;
      assert l in Triggers(f) * hits;
    case FNary(AllOf, subs) =>
      assert subs[0] in subs;
      TriggersMissNothing(subs[0], hits);
      assert forall s :: s in subs[1..] ==> s in subs;
      FewestMissesNothing(subs[1..], Triggers(subs[0]), hits);
  }

  lemma {:induction false} FewestMissesNothing(subs: seq<Formula>, best: set<nat>, hits: set<nat>)
    requires forall s :: s in subs ==> MonotoneFormula(s) && Eval(s, hits)
    requires best * hits != {}
    ensures Fewest(subs, best) * hits != {}
    decreases subs, 0
  {
    if subs != [] {
      assert subs[0] in subs;
      TriggersMissNothing(subs[0], hits);
      var t := Triggers(subs[0]);
      assert forall s :: s in subs[1..] ==> s in subs;
      FewestMissesNothing(subs[1..], if |t| < |best| then t else best, hits);
    }
  }

  lemma {:induction false} TriggersOfMember(subs: seq<Formula>, i: nat)
    requires i < |subs|
    ensures Triggers(subs[i]) <= AllTriggers(subs)
  {
    if i > 0 {
      TriggersOfMember(subs[1..], i - 1);
    }
  }

  lemma {:induction false} TriggersOfLeaves(subs: seq<Formula>)
    requires AllLeaves(subs)
    ensures AllTriggers(subs) == set s | s in subs :: s.leaf
  {
    if subs != [] {
      var first, rest := subs[0], subs[1..];
      assert forall s :: s in subs <==> s == first || s in rest;
      TriggersOfLeaves(rest);
      assert Triggers(first) == {first.leaf};
    }
  }

  /** A refutable formula holds exactly if none of its leaves matches. */
  lemma {:induction false} RefutedByLeaves(f: Formula, hits: set<nat>)
    requires Refutable(f)
    ensures Eval(f, hits) <==> Refuting(f) !! hits
  {
    if f.sub.FLeaf? {
      assert f.sub.leaf in Refuting(f);
    } else {
      assert Eval(f.sub, hits) <==> exists s :: s in f.sub.subs && s.leaf in hits;
    }
  }

  /** Fewer hits never make a monotone formula true. */
  lemma {:induction false} MonotoneInHits(f: Formula, fewer: set<nat>, hits: set<nat>)
    requires MonotoneFormula(f) && fewer <= hits && Eval(f, fewer)
    ensures Eval(f, hits)
    decreases f
  {
    match f
    case FLeaf(_) =>
    case FNary(AnyOf, subs) =>
      var s :| s in subs && Eval(s, fewer);
      MonotoneInHits(s, fewer, hits);
    case FNary(AllOf, subs) =>
      forall s | s in subs ensures Eval(s, hits) {
        MonotoneInHits(s, fewer, hits);
      }
  }

  // ------------------------------------------------------- compiled form

  type LeafIds = map<Bytes, nat>

  /** All leaves of e have a number. */
  predicate Has(ids: LeafIds, e: Expr)
    decreases e
  {
    match e
    case Leaf(_, _) => Key(e) in ids
    case Nary(_, subs) => forall s :: s in subs ==> Has(ids, s)
    case Not(sub) => Has(ids, sub)
    case Absent => false
  }

  /** The compiled form of e over the numbers of its leaves. */
  function FormulaOf(ids: LeafIds, e: Expr): Formula
    requires Has(ids, e)
    decreases e, 1
  {
    match e
    case Leaf(_, _) => FLeaf(ids[Key(e)])
    case Nary(op, subs) => FNary(op, FormulasOf(ids, subs))
    case Not(sub) => FNot(FormulaOf(ids, sub))
  }

  function FormulasOf(ids: LeafIds, es: seq<Expr>): (fs: seq<Formula>)
    requires forall s :: s in es ==> Has(ids, s)
    ensures |fs| == |es|
    ensures forall i :: 0 <= i < |es| ==> es[i] in es && fs[i] == FormulaOf(ids, es[i])
    decreases es, 0
  {
    if es == [] then [] else [FormulaOf(ids, es[0])] + FormulasOf(ids, es[1..])
  }

  /** The hits are the numbers of exactly the leaves that match. */
  ghost predicate Exact(w: World, ids: LeafIds, vs: seq<Bytes>, hits: set<nat>) {
    forall kind, value :: Key(Leaf(kind, value)) in ids ==>
      (ids[Key(Leaf(kind, value))] in hits <==> Holds(w, Leaf(kind, value), vs))
  }

  /** Evaluating the compiled form agrees with the meaning of the expression. */
  lemma {:induction false} EvalAgrees(w: World, ids: LeafIds, e: Expr, vs: seq<Bytes>, hits: set<nat>)
    requires Has(ids, e) && Exact(w, ids, vs, hits)
    ensures Eval(FormulaOf(ids, e), hits) <==> Holds(w, e, vs)
    decreases e
  {
    match e
    case Leaf(kind, value) =>
      assert Key(Leaf(kind, value)) in ids;
    case Nary(op, subs) =>
      var fs := FormulasOf(ids, subs);
      forall i | 0 <= i < |subs| ensures fs[i] in fs && (Eval(fs[i], hits) <==> Holds(w, subs[i], vs)) {
        EvalAgrees(w, ids, subs[i], vs, hits);
      }
      NaryAgrees(w, op, subs, fs, vs, hits);
    case Not(sub) =>
      EvalAgrees(w, ids, sub, vs, hits);
  }

  lemma {:induction false} NaryAgrees(w: World, op: Op, es: seq<Expr>, fs: seq<Formula>, vs: seq<Bytes>, hits: set<nat>)
    requires |es| == |fs|
    requires forall i :: 0 <= i < |es| ==> (Eval(fs[i], hits) <==> Holds(w, es[i], vs))
    ensures Eval(FNary(op, fs), hits) <==> Holds(w, Nary(op, es), vs)
  {
    assert forall i :: 0 <= i < |es| ==> es[i] in es && fs[i] in fs;
  }

  lemma {:induction false} MonotoneCompiles(ids: LeafIds, e: Expr)
    requires Has(ids, e) && Canonical(e) && Monotone(e)
    ensures MonotoneFormula(FormulaOf(ids, e))
    decreases e
  {
    match e
    case Leaf(_, _) =>
    case Nary(op, subs) =>
      assert AllCanonical(subs) && |subs| > 1;
      var fs := FormulasOf(ids, subs);
      forall i | 0 <= i < |subs| ensures MonotoneFormula(fs[i]) {
        MonotoneCompiles(ids, subs[i]);
      }
  }

  /** A simple expression holds as soon as one of its triggers matches. */
  lemma {:induction false} SimpleTriggers(ids: LeafIds, e: Expr, hits: set<nat>)
    requires Has(ids, e) && Simple(e)
    ensures Eval(FormulaOf(ids, e), hits) <==> Triggers(FormulaOf(ids, e)) * hits != {}
  {
    var f := FormulaOf(ids, e);
    if e.Leaf? {
      assert f.leaf in hits <==> f.leaf in Triggers(f) * hits;
    } else {
      assert AllLeaves(f.subs);
      TriggersOfLeaves(f.subs);
      if Eval(f, hits) {
        var s :| s in f.subs && Eval(s, hits);
        assert s.leaf in Triggers(f) * hits;
      }
      if Triggers(f) * hits != {} {
        var l :| l in Triggers(f) * hits;
        var s :| s in f.subs && s.leaf == l;
        assert Eval(s, hits);
      }
    }
  }

  /** Adding leaves does not change what is compiled already. */
  lemma {:induction false} FormulaStable(ids: LeafIds, more: LeafIds, e: Expr)
    requires Has(ids, e)
    requires forall k :: k in ids ==> k in more && more[k] == ids[k]
    ensures Has(more, e) && FormulaOf(more, e) == FormulaOf(ids, e)
    decreases e
  {
    match e
    case Leaf(_, _) =>
    case Nary(op, subs) =>
      forall s | s in subs ensures Has(more, s) && FormulaOf(more, s) == FormulaOf(ids, s) {
        FormulaStable(ids, more, s);
      }
      assert FormulasOf(more, subs) == FormulasOf(ids, subs);
    case Not(sub) =>
      FormulaStable(ids, more, sub);
  }
}
