/** Adding conditions to a group: compile, leaf and the second half of follow (engine.go). */
module GroupGrowth {
  import opened ByteStrings
  import opened Sorting
  import opened Expressions
  import opened Semantics
  import opened Formulas
  import opened ValueIndex
  import opened Groups

  const MAX_NEGATIONS: nat := 0x100_0000

  function NewGroup(path: Bytes): Group {
    Group(path, map[], map[], [], [], [], ValueIndex.Empty())
  }

  lemma {:induction false} NewGroupValid(w: World, path: Bytes)
    ensures Groups.Valid(w, NewGroup(path))
  {
    EmptyRepresents(w);
  }

  // --------------------------------------------------------------- leaves

  /** g' has the conditions of g and possibly more leaves. */
  ghost predicate Grown(g: Group, g': Group) {
    && g'.path == g.path && g'.edges == g.edges && g'.neg == g.neg
    && (forall k :: k in g.leafIds ==> k in g'.leafIds && g'.leafIds[k] == g.leafIds[k])
  }

  ghost predicate InRange(ls: set<nat>, n: nat) {
    forall l :: l in ls ==> l < n
  }

  ghost predicate AllInRange(fs: seq<Formula>, n: nat) {
    forall i :: 0 <= i < |fs| ==> InRange(Triggers(fs[i]), n)
  }

  lemma {:induction false} TriggersInRange(ids: LeafIds, e: Expr, n: nat)
    requires Has(ids, e) && forall k :: k in ids ==> ids[k] < n
    ensures InRange(Triggers(FormulaOf(ids, e)), n)
    decreases e
  {
    match e
    case Leaf(_, _) =>
    case Nary(op, subs) =>
      var fs := FormulasOf(ids, subs);
      forall i | 0 <= i < |subs| ensures InRange(Triggers(fs[i]), n) {
        TriggersInRange(ids, subs[i], n);
      }
      NaryInRange(op, fs, n);
    case Not(_) =>
  }

  lemma {:induction false} NaryInRange(op: Op, fs: seq<Formula>, n: nat)
    requires AllInRange(fs, n)
    ensures InRange(Triggers(FNary(op, fs)), n)
  {
    if op == AllOf && fs != [] {
      assert forall i :: 0 <= i < |fs[1..]| ==> fs[1..][i] == fs[i + 1];
      FewestInRange(fs[1..], Triggers(fs[0]), n);
    } else {
      AllTriggersInRange(fs, n);
    }
  }

  lemma {:induction false} FewestInRange(fs: seq<Formula>, best: set<nat>, n: nat)
    requires AllInRange(fs, n) && InRange(best, n)
    ensures InRange(Fewest(fs, best), n)
  {
    if fs != [] {
      var t := Triggers(fs[0]);
      assert forall i :: 0 <= i < |fs[1..]| ==> fs[1..][i] == fs[i + 1];
      FewestInRange(fs[1..], if |t| < |best| then t else best, n);
    }
  }

  lemma {:induction false} AllTriggersInRange(fs: seq<Formula>, n: nat)
    requires AllInRange(fs, n)
    ensures InRange(AllTriggers(fs), n)
  {
    if fs != [] {
      assert forall i :: 0 <= i < |fs[1..]| ==> fs[1..][i] == fs[i + 1];
      AllTriggersInRange(fs[1..], n);
    }
  }

  lemma {:induction false} RefutingInRange(ids: LeafIds, e: Expr, n: nat)
    requires Has(ids, e) && Refutable(FormulaOf(ids, e)) && forall k :: k in ids ==> ids[k] < n
    ensures InRange(Refuting(FormulaOf(ids, e)), n)
  {
    if e.sub.Nary? {
      var es, fs := e.sub.subs, FormulasOf(ids, e.sub.subs);
      assert FormulaOf(ids, e.sub) == FNary(e.sub.op, fs);
      assert FormulaOf(ids, e) == FNot(FNary(e.sub.op, fs));
      assert AllLeaves(fs);
      forall i | 0 <= i < |fs| ensures fs[i].FLeaf? && fs[i].leaf < n {
        assert fs[i] in fs && fs[i] == FormulaOf(ids, es[i]);
      }
    }
  }

  lemma {:induction false} RegisteredInRange(g: Group, e: Edge, x: Expr)
    requires LeafTable(g) && Has(g.leafIds, x)
    ensures InRange(RegisteredLeaves(e, x, FormulaOf(g.leafIds, x)), |g.leaves|)
  {
    TriggersInRange(g.leafIds, x, |g.leaves|);
    if Refutable(FormulaOf(g.leafIds, x)) {
      RefutingInRange(g.leafIds, x, |g.leaves|);
    }
  }

  /** Adds the leaf e, which no condition is registered at yet. */
  function WithLeaf(g: Group, e: Expr, index: ValueIndex.Index): Group {
    g.(leafIds := g.leafIds[Key(e) := |g.leaves|], leaves := g.leaves + [e],
       registered := g.registered + [[]], index := index)
  }

  lemma {:induction false} WithLeafTable(g: Group, e: Expr, index: ValueIndex.Index)
    requires LeafTable(g) && e.Leaf? && Key(e) !in g.leafIds
    ensures LeafTable(WithLeaf(g, e, index)) && Grown(g, WithLeaf(g, e, index)) && e !in g.leaves
  {
    assert forall i :: 0 <= i < |g.leaves| ==> Key(g.leaves[i]) in g.leafIds;
  }

  lemma {:induction false} WithLeafEdge(w: World, g: Group, e: Expr, index: ValueIndex.Index, k: Bytes)
    requires LeafTable(g) && e.Leaf? && Key(e) !in g.leafIds && k in g.edges && GoodKey(w, g, k) && GoodEdge(g, k)
    ensures GoodKey(w, WithLeaf(g, e, index), k) && GoodEdge(WithLeaf(g, e, index), k)
  {
    FormulaStable(g.leafIds, WithLeaf(g, e, index).leafIds, ExprOf(k));
    RegisteredInRange(g, g.edges[k], ExprOf(k));
  }

  lemma {:induction false} WithLeafValid(w: World, g: Group, e: Expr, index: ValueIndex.Index)
    requires Groups.Valid(w, g) && e.Leaf? && Key(e) !in g.leafIds && GoodLeaf(w, e.kind, e.value)
    requires Represents(w, index, g.leaves + [e])
    ensures Groups.Valid(w, WithLeaf(g, e, index)) && Grown(g, WithLeaf(g, e, index))
  {
    var g' := WithLeaf(g, e, index);
    WithLeafTable(g, e, index);
    forall k | k in g'.edges ensures GoodKey(w, g', k) && GoodEdge(g', k) {
      WithLeafEdge(w, g, e, index, k);
    }
    SameEdges(g, g');
  }

  lemma {:induction false} SameEdges(g: Group, g': Group)
    requires g'.edges == g.edges && g'.neg == g.neg && g'.registered == g.registered + [[]]
    requires UniqueKeys(g) && RegisteredKnown(g) && NegationsKnown(g)
    ensures UniqueKeys(g') && RegisteredKnown(g') && NegationsKnown(g')
  {
    forall e ensures IsEdge(g', e) <==> IsEdge(g, e) ensures IsNegation(g', e) <==> IsNegation(g, e) {
    }
    forall l, e | 0 <= l < |g'.registered| && e in g'.registered[l] ensures IsEdge(g', e) {
      assert l < |g.registered|;
    }
  }

  /** leaf: makes sure that the leaf e has a number. */
  method AddLeaf(w: World, g: Group, e: Expr) returns (g': Group)
    requires w.Lawful() && Groups.Valid(w, g) && e.Leaf? && GoodLeaf(w, e.kind, e.value)
    ensures Groups.Valid(w, g') && Grown(g, g') && Key(e) in g'.leafIds
  {
    if Key(e) in g.leafIds {
      return g;
    }
    WithLeafTable(g, e, g.index);
    var index := ValueIndex.Add(w, g.index, e, |g.leaves|, g.leaves);
    WithLeafValid(w, g, e, index);
    g' := WithLeaf(g, e, index);
  }

  lemma {:induction false} GrownHas(g: Group, g': Group, e: Expr)
    requires Grown(g, g') && Has(g.leafIds, e)
    ensures Has(g'.leafIds, e) && FormulaOf(g'.leafIds, e) == FormulaOf(g.leafIds, e)
  {
    FormulaStable(g.leafIds, g'.leafIds, e);
  }

  /** compile: the formula of e, whose leaves are added as necessary. */
  method Compile(w: World, g: Group, e: Expr) returns (g': Group, f: Formula)
    requires w.Lawful() && Groups.Valid(w, g) && GoodExpr(w, e) && Canonical(e)
    ensures Groups.Valid(w, g') && Grown(g, g') && Has(g'.leafIds, e) && f == FormulaOf(g'.leafIds, e)
    decreases e, 0
  {
    match e
    case Leaf(_, _) =>
      g' := AddLeaf(w, g, e);
      f := FLeaf(g'.leafIds[Key(e)]);
    case Not(sub) =>
      var sf;
      g', sf := Compile(w, g, sub);
      f := FNot(sf);
    case Nary(op, subs) =>
      assert AllCanonical(subs);
      var fs;
      g', fs := CompileAll(w, g, subs);
      CompiledAll(g', subs, fs);
      f := FNary(op, fs);
  }

  method CompileAll(w: World, g: Group, es: seq<Expr>) returns (g': Group, fs: seq<Formula>)
    requires w.Lawful() && Groups.Valid(w, g) && AllCanonical(es) && forall s :: s in es ==> GoodExpr(w, s)
    ensures Groups.Valid(w, g') && Grown(g, g') && Compiled(g', es, fs)
    decreases es, 0
  {
    g', fs := g, [];
    for i := 0 to |es|
      invariant Groups.Valid(w, g') && Grown(g, g') && Compiled(g', es[..i], fs)
    {
      TakeNext(es, i);
      g', fs := CompileNext(w, g, g', es[..i], fs, es[i]);
    }
    TakeAll(es);
  }

  method CompileNext(w: World, ghost start: Group, g: Group, ghost done: seq<Expr>, fs: seq<Formula>, e: Expr)
    returns (g': Group, fs': seq<Formula>)
    requires w.Lawful() && Groups.Valid(w, g) && Grown(start, g) && Compiled(g, done, fs)
    requires GoodExpr(w, e) && Canonical(e)
    ensures Groups.Valid(w, g') && Grown(start, g') && Compiled(g', done + [e], fs')
    decreases e, 1
  {
    var f;
    g', f := Compile(w, g, e);
    CompiledMore(g, g', done, fs, e);
    fs' := fs + [f];
  }

  /** fs are the formulas of es. */
  ghost predicate Compiled(g: Group, es: seq<Expr>, fs: seq<Formula>) {
    |es| == |fs| && forall i :: 0 <= i < |es| ==> Has(g.leafIds, es[i]) && fs[i] == FormulaOf(g.leafIds, es[i])
  }

  lemma {:induction false} CompiledMore(g: Group, g': Group, es: seq<Expr>, fs: seq<Formula>, e: Expr)
    requires Grown(g, g') && Compiled(g, es, fs) && Has(g'.leafIds, e)
    ensures Compiled(g', es + [e], fs + [FormulaOf(g'.leafIds, e)])
  {
    forall i | 0 <= i < |es| ensures Has(g'.leafIds, es[i]) && fs[i] == FormulaOf(g'.leafIds, es[i]) {
      GrownHas(g, g', es[i]);
    }
  }

  lemma {:induction false} CompiledAll(g: Group, es: seq<Expr>, fs: seq<Formula>)
    requires Compiled(g, es, fs)
    ensures (forall s :: s in es ==> Has(g.leafIds, s)) && fs == FormulasOf(g.leafIds, es)
  {
    forall s | s in es ensures Has(g.leafIds, s) {
      var i :| 0 <= i < |es| && es[i] == s;
    }
  }

  // ---------------------------------------------------------------- edges

  /** Registers e at the leaves ls. */
  function Register(registered: seq<seq<Edge>>, ls: set<nat>, e: Edge): (r: seq<seq<Edge>>)
    ensures |r| == |registered|
    ensures forall l :: 0 <= l < |r| ==> r[l] == if l in ls then registered[l] + [e] else registered[l]
  {
    seq(|registered|, l requires 0 <= l < |registered| => if l in ls then registered[l] + [e] else registered[l])
  }

  /** The new edge of the condition x, compiled to f. */
  function NewEdge(g: Group, x: Expr, f: Formula, id: nat, next: nat): Edge {
    var n := |g.neg| + 1;
    var neg := if !Monotone(x) && n < MAX_NEGATIONS && Refutable(f) then n else 0;
    Edge(id, neg, if Simple(x) then None else Some(f), next)
  }

  /** Adds the condition x: registered at its leaves before its negation is published. */
  function WithEdge(g: Group, x: Expr, f: Formula, e: Edge): Group {
    var ls := if Monotone(x) then Triggers(f) else if e.neg != 0 && Refutable(f) then Refuting(f) else {};
    g.(edges := g.edges[Key(x) := e], registered := Register(g.registered, ls, e),
       neg := if Monotone(x) then g.neg else g.neg + [e])
  }

  ghost predicate FreshId(g: Group, id: nat) {
    forall k :: k in g.edges ==> g.edges[k].id < id
  }

  /** The condition x can be added to g under the number id. */
  ghost predicate CanAdd(w: World, g: Group, x: Expr, id: nat) {
    && Groups.Valid(w, g) && Canonical(x) && GoodExpr(w, x) && Has(g.leafIds, x)
    && Key(x) !in g.edges && FreshId(g, id)
  }

  lemma {:induction false} NotRegistered(w: World, g: Group, x: Expr, id: nat, e: Edge)
    requires CanAdd(w, g, x, id) && e.id == id
    ensures forall l :: 0 <= l < |g.registered| ==> e !in g.registered[l]
    ensures e !in g.neg
    ensures forall k :: k in g.edges ==> g.edges[k] != e
  {
    forall l, d | 0 <= l < |g.registered| && d in g.registered[l] ensures d.id < id {
      assert IsEdge(g, d);
    }
    forall d | d in g.neg ensures d.id < id {
      assert IsNegation(g, d);
    }
  }

  lemma {:induction false} NewEdgeGood(w: World, g: Group, x: Expr, id: nat, next: nat)
    requires CanAdd(w, g, x, id)
    ensures var f := FormulaOf(g.leafIds, x);
            var e := NewEdge(g, x, f, id, next);
            GoodKey(w, WithEdge(g, x, f, e), Key(x)) && GoodEdge(WithEdge(g, x, f, e), Key(x))
  {
    var f := FormulaOf(g.leafIds, x);
    var e := NewEdge(g, x, f, id, next);
    ParseKeyInvertsKey(x);
    NotRegistered(w, g, x, id, e);
    SimpleMonotone(x);
  }

  lemma {:induction false} OldEdgeGood(w: World, g: Group, x: Expr, f: Formula, e: Edge, k: Bytes)
    requires k in g.edges && k != Key(x) && g.edges[k] != e && GoodKey(w, g, k) && GoodEdge(g, k)
    ensures GoodKey(w, WithEdge(g, x, f, e), k) && GoodEdge(WithEdge(g, x, f, e), k)
  {
    var g' := WithEdge(g, x, f, e);
    var d := g.edges[k];
    assert forall l :: 0 <= l < |g.registered| ==> (d in g'.registered[l] <==> d in g.registered[l]);
  }

  lemma {:induction false} EdgesKept(g: Group, x: Expr, f: Formula, e: Edge)
    requires Key(x) !in g.edges
    ensures forall d :: IsEdge(g, d) || d == e ==> IsEdge(WithEdge(g, x, f, e), d)
    ensures Key(x) in WithEdge(g, x, f, e).edges
  {
    var g' := WithEdge(g, x, f, e);
    assert Key(x) in g'.edges && g'.edges[Key(x)] == e;
    forall d | IsEdge(g, d) ensures IsEdge(g', d) {
      var k :| k in g.edges && g.edges[k] == d;
      assert g'.edges[k] == d;
    }
  }

  lemma {:induction false} NegationsKept(g: Group, x: Expr, f: Formula, e: Edge)
    requires Key(x) !in g.edges && ExprOf(Key(x)) == x && e !in g.neg && NegationsKnown(g)
    ensures NegationsKnown(WithEdge(g, x, f, e))
  {
    var g' := WithEdge(g, x, f, e);
    assert Key(x) in g'.edges && g'.edges[Key(x)] == e;
    forall d | IsNegation(g, d) ensures IsNegation(g', d) {
      var k :| k in g.edges && g.edges[k] == d && !Monotone(ExprOf(k));
      assert g'.edges[k] == d;
    }
  }

  lemma {:induction false} RegisteredKept(g: Group, x: Expr, f: Formula, e: Edge)
    requires Key(x) !in g.edges && RegisteredKnown(g)
    ensures RegisteredKnown(WithEdge(g, x, f, e))
  {
    EdgesKept(g, x, f, e);
  }

  lemma {:induction false} WithEdgeKnown(w: World, g: Group, x: Expr, id: nat, f: Formula, e: Edge)
    requires CanAdd(w, g, x, id) && e.id == id
    ensures var g' := WithEdge(g, x, f, e);
            UniqueKeys(g') && RegisteredKnown(g') && NegationsKnown(g')
  {
    ParseKeyInvertsKey(x);
    NotRegistered(w, g, x, id, e);
    RegisteredKept(g, x, f, e);
    NegationsKept(g, x, f, e);
  }

  lemma {:induction false} WithEdgeValid(w: World, g: Group, x: Expr, id: nat, next: nat)
    requires CanAdd(w, g, x, id)
    ensures var f := FormulaOf(g.leafIds, x);
            Groups.Valid(w, WithEdge(g, x, f, NewEdge(g, x, f, id, next)))
  {
    var f := FormulaOf(g.leafIds, x);
    var e := NewEdge(g, x, f, id, next);
    var g' := WithEdge(g, x, f, e);
    NewEdgeGood(w, g, x, id, next);
    NotRegistered(w, g, x, id, e);
    forall k | k in g.edges ensures GoodKey(w, g', k) && GoodEdge(g', k) {
      OldEdgeGood(w, g, x, f, e, k);
    }
    WithEdgeKnown(w, g, x, id, f, e);
  }

  /** Adds the new condition x, which leads to the state next. */
  method AddCondition(w: World, g: Group, x: Expr, id: nat, next: nat) returns (g': Group)
    requires w.Lawful() && Groups.Valid(w, g) && Canonical(x) && GoodExpr(w, x)
    requires Key(x) !in g.edges && FreshId(g, id)
    ensures Groups.Valid(w, g') && g'.path == g.path
    ensures Key(x) in g'.edges && g'.edges[Key(x)].id == id && g'.edges[Key(x)].next == next
    ensures g'.edges == g.edges[Key(x) := g'.edges[Key(x)]]
  {
    var compiled, f := Compile(w, g, x);
    WithEdgeValid(w, compiled, x, id, next);
    g' := WithEdge(compiled, x, f, NewEdge(compiled, x, f, id, next));
  }
}
