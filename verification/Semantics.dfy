/** What normalized patterns, conditions and condition sets mean for an event. */
module Semantics {
  import opened ByteStrings
  import opened Expressions
  import opened Sorting
  import Rules
  import Glob

  type World = Rules.World

  /** A normalized condition: at most one per path in a normalized condition set. */
  datatype NCond = NCond(path: Bytes, expr: Expr)

  /** Whether the folded value v matches a single-value pattern. */
  ghost predicate LeafMatches(w: World, kind: LeafKind, value: Bytes, v: Bytes) {
    match kind
    case LeafEquals => v == value
    case LeafPrefix => value <= v
    case LeafSuffix => HasSuffix(v, value)
    case LeafGlob => Glob.Tokens(value).Some? && Glob.Accepts(Glob.Tokens(value).value, v)
    case LeafExists => true
    case LeafNumber => Rules.NumberIn(w, v, Some(w.parseInterval(value)))
    case LeafCIDR =>
      var prefix, a := w.parsePrefix(value), w.parseIP(v);
      prefix.Some? && a.Some? && prefix.value.Contains(a.value)
  }

  /** Whether the folded values vs of a present property match e. */
  ghost predicate Holds(w: World, e: Expr, vs: seq<Bytes>)
    decreases e
  {
    match e
    case Leaf(kind, value) => exists v :: v in vs && LeafMatches(w, kind, value, v)
    case Nary(AnyOf, subs) => exists s :: s in subs && Holds(w, s, vs)
    case Nary(AllOf, subs) => forall s :: s in subs ==> Holds(w, s, vs)
    case Not(sub) => !Holds(w, sub, vs)
    case Absent => vs == []
  }

  ghost predicate Quantified(w: World, op: Op, es: seq<Expr>, vs: seq<Bytes>) {
    match op
    case AnyOf => exists e :: e in es && Holds(w, e, vs)
    case AllOf => forall e :: e in es ==> Holds(w, e, vs)
  }

  /** A condition never matches an absent property, except for {"exists": false}. */
  ghost predicate CondHolds(w: World, c: NCond, vs: seq<Bytes>) {
    (c.expr.Absent? || vs != []) && Holds(w, c.expr, vs)
  }

  ghost predicate CondHoldsOn(w: World, c: NCond, event: Rules.Event) {
    CondHolds(w, c, Rules.FoldedAt(w, event, c.path))
  }

  ghost predicate SetHolds(w: World, conds: seq<NCond>, event: Rules.Event) {
    forall c :: c in conds ==> CondHoldsOn(w, c, event)
  }

  ghost predicate WellFormed(c: NCond) {
    c.path != [] && (c.expr.Absent? || Canonical(c.expr))
  }

  predicate PathLeq(a: NCond, b: NCond) {
    Leq(a.path, b.path)
  }

  /** Normalized condition sets: well-formed conditions, strictly sorted by path. */
  ghost predicate NormalSet(conds: seq<NCond>) {
    && (forall c :: c in conds ==> WellFormed(c))
    && (forall i, j :: 0 <= i < j < |conds| ==> PathLeq(conds[i], conds[j]) && conds[i].path != conds[j].path)
  }

  // ------------------------------------------------------------- combine

  lemma {:induction false} FlattenMeaning(w: World, op: Op, es: seq<Expr>, vs: seq<Bytes>)
    ensures Quantified(w, op, Flatten(op, es), vs) <==> Quantified(w, op, es, vs)
  {
    if es != [] {
      FlattenMeaning(w, op, es[1..], vs);
      var e := es[0];
      var first, rest := if HasOp(e, op) then e.subs else [e], Flatten(op, es[1..]);
      assert Quantified(w, op, first, vs) <==> Holds(w, e, vs) by {
        if !HasOp(e, op) {
          assert e in first;
        }
      }
      QuantifiedConcat(w, op, first, rest, vs);
      QuantifiedConcat(w, op, [e], es[1..], vs);
      assert [e] + es[1..] == es;
      assert e in [e];
    }
  }

  lemma {:induction false} QuantifiedConcat(w: World, op: Op, a: seq<Expr>, b: seq<Expr>, vs: seq<Bytes>)
    ensures Quantified(w, op, a + b, vs) <==>
            if op == AnyOf then Quantified(w, op, a, vs) || Quantified(w, op, b, vs)
            else Quantified(w, op, a, vs) && Quantified(w, op, b, vs)
  {
    if op == AnyOf {
      if Quantified(w, op, a, vs) {
        var e :| e in a && Holds(w, e, vs);
        assert e in a + b;
      }
      if Quantified(w, op, b, vs) {
        var e :| e in b && Holds(w, e, vs);
        assert e in a + b;
      }
    } else {
      assert forall e :: e in a ==> e in a + b;
      assert forall e :: e in b ==> e in a + b;
    }
  }

  lemma {:induction false} QuantifiedSame(w: World, op: Op, a: seq<Expr>, b: seq<Expr>, vs: seq<Bytes>)
    requires forall e :: e in a <==> e in b
    ensures Quantified(w, op, a, vs) <==> Quantified(w, op, b, vs)
  {
  }

  /** Sorting and dropping equal keys keeps the set of operands. */
  lemma {:induction false} CombineOperands(flat: seq<Expr>)
    requires AllCanonical(flat)
    ensures forall e :: e in Compact(SameKey, Sort(KeyLeq, flat)) <==> e in flat
  {
    var sorted := Sort(KeyLeq, flat);
    var compact := Compact(SameKey, sorted);
    KeyOrder();
    SortCorrect(KeyLeq, flat);
    CompactMembers(SameKey, sorted);
    forall e | e in flat ensures e in compact {
      assert e in sorted;
      var i :| 0 <= i < |sorted| && sorted[i] == e;
      var y := CompactCovers(SameKey, sorted, i);
      assert y in sorted && y in flat;
      KeyInjective(e, y);
    }
  }

  lemma {:induction false} OperandsMeaning(w: World, op: Op, es: seq<Expr>, vs: seq<Bytes>)
    requires es != []
    ensures Holds(w, if |es| == 1 then es[0] else Nary(op, es), vs) <==> Quantified(w, op, es, vs)
  {
    assert es[0] in es;
  }

  /** combine means what its operator says. */
  lemma {:induction false} CombineMeaning(w: World, op: Op, es: seq<Expr>, vs: seq<Bytes>)
    requires es != [] && AllCanonical(es)
    ensures Holds(w, Combine(op, es), vs) <==> Quantified(w, op, es, vs)
  {
    var flat := Flatten(op, es);
    var compact := Compact(SameKey, Sort(KeyLeq, flat));
    FlattenCanonical(op, es);
    FlattenMeaning(w, op, es, vs);
    CombineOperands(flat);
    QuantifiedSame(w, op, compact, flat, vs);
    assert flat[0] in compact;
    OperandsMeaning(w, op, compact, vs);
  }

  /** Double negation cancels out. */
  lemma {:induction false} NegateMeaning(w: World, e: Expr, vs: seq<Bytes>)
    ensures Holds(w, Negate(e), vs) <==> !Holds(w, e, vs)
  {
  }
}
