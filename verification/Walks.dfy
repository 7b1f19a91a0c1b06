/** Walking the trie for one event: visit, improve and consider (engine.go). */
module Walks {
  import opened ByteStrings
  import opened Sorting
  import opened Expressions
  import opened Semantics
  import opened Groups
  import opened Tries
  import opened Visibility

  /** The folded values at a path that has any. */
  datatype Span = Span(path: Bytes, values: seq<Bytes>)

  function FindSpan(spans: seq<Span>, path: Bytes): (i: Option<nat>)
    ensures i.Some? ==> i.value < |spans| && spans[i.value].path == path
    ensures i.None? ==> forall j :: 0 <= j < |spans| ==> spans[j].path != path
  {
    if spans == [] then None
    else if spans[0].path == path then Some(0)
    else
      match FindSpan(spans[1..], path)
      case None => None
      case Some(j) => Some(j + 1)
  }

  /** The values a condition on path looks at. */
  function At(spans: seq<Span>, path: Bytes): seq<Bytes> {
    match FindSpan(spans, path)
    case None => []
    case Some(i) => spans[i].values
  }

  ghost predicate GoodSpans(spans: seq<Span>) {
    && (forall i :: 0 <= i < |spans| ==> spans[i].values != [])
    && (forall i, j :: 0 <= i < j < |spans| ==> spans[i].path != spans[j].path)
  }

  // --------------------------------------------------------- live states

  ghost predicate LinkHolds(w: World, links: Links, spans: seq<Span>, t: nat)
    requires t < |links|
  {
    CondHolds(w, links[t].cond, At(spans, links[t].cond.path))
  }

  /** All conditions on the way from s to t hold. */
  ghost predicate Live(w: World, links: Links, spans: seq<Span>, s: nat, t: nat)
    requires t < |links|
    decreases t
  {
    t == s || (s < t && links[t].parent < t && LinkHolds(w, links, spans, t) &&
               Live(w, links, spans, s, links[t].parent))
  }

  ghost function LiveSet(w: World, links: Links, spans: seq<Span>, s: nat): set<nat> {
    set t: nat | t < |links| && Live(w, links, spans, s, t)
  }

  /** c was added to s, and its condition holds. */
  ghost predicate IsKid(w: World, links: Links, spans: seq<Span>, s: nat, c: nat) {
    s < c < |links| && links[c].parent == s && LinkHolds(w, links, spans, c)
  }

  /** The state s and everything live below some of its kids. */
  ghost function Covered(w: World, links: Links, spans: seq<Span>, s: nat, done: set<nat>): set<nat> {
    set t: nat | t < |links| && IsCovered(w, links, spans, s, done, t)
  }

  ghost predicate IsCovered(w: World, links: Links, spans: seq<Span>, s: nat, done: set<nat>, t: nat)
    requires t < |links|
  {
    t == s || exists c :: c in done && Live(w, links, spans, c, t)
  }

  lemma {:induction false} LiveTrans(w: World, links: Links, spans: seq<Span>, s: nat, c: nat, t: nat)
    requires t < |links| && IsKid(w, links, spans, s, c) && Live(w, links, spans, c, t)
    ensures Live(w, links, spans, s, t)
    decreases t
  {
    if t != c {
      LiveTrans(w, links, spans, s, c, links[t].parent);
    }
  }

  /** What is live below s other than s itself is live below exactly one kid. */
  lemma {:induction false} LiveThroughKid(w: World, links: Links, spans: seq<Span>, s: nat, t: nat) returns (c: nat)
    requires t < |links| && t != s && Live(w, links, spans, s, t)
    ensures IsKid(w, links, spans, s, c) && Live(w, links, spans, c, t)
    decreases t
  {
    if links[t].parent == s {
      c := t;
    } else {
      c := LiveThroughKid(w, links, spans, s, links[t].parent);
    }
  }

  lemma {:induction false} KidsDisjoint(w: World, links: Links, spans: seq<Span>, s: nat, c: nat, d: nat, t: nat)
    requires t < |links| && IsKid(w, links, spans, s, c) && IsKid(w, links, spans, s, d)
    requires Live(w, links, spans, c, t) && Live(w, links, spans, d, t)
    ensures c == d
    decreases t
  {
    if t != c && t != d {
      KidsDisjoint(w, links, spans, s, c, d, links[t].parent);
    } else if t == c && t != d {
      LiveBelow(w, links, spans, d, s);
    } else if t == d && t != c {
      LiveBelow(w, links, spans, c, s);
    }
  }

  lemma {:induction false} LiveBelow(w: World, links: Links, spans: seq<Span>, c: nat, s: nat)
    requires s < c && s < |links|
    ensures !Live(w, links, spans, c, s)
  {
  }

  lemma {:induction false} CoverMore(w: World, links: Links, spans: seq<Span>, s: nat, done: set<nat>, c: nat)
    requires s < |links| && IsKid(w, links, spans, s, c) && c !in done
    requires forall d :: d in done ==> IsKid(w, links, spans, s, d)
    ensures Covered(w, links, spans, s, done + {c}) == Covered(w, links, spans, s, done) + LiveSet(w, links, spans, c)
    ensures Covered(w, links, spans, s, done) !! LiveSet(w, links, spans, c)
  {
    forall t | t in Covered(w, links, spans, s, done) ensures t !in LiveSet(w, links, spans, c) {
      if t in LiveSet(w, links, spans, c) {
        if t == s {
          LiveBelow(w, links, spans, c, s);
        } else {
          var d :| d in done && Live(w, links, spans, d, t);
          KidsDisjoint(w, links, spans, s, c, d, t);
        }
      }
    }
  }

  lemma {:induction false} CoverAll(w: World, links: Links, spans: seq<Span>, s: nat, done: set<nat>)
    requires s < |links| && forall c: nat :: c in done <==> IsKid(w, links, spans, s, c)
    ensures Covered(w, links, spans, s, done) == LiveSet(w, links, spans, s)
  {
    forall t | t in LiveSet(w, links, spans, s) ensures t in Covered(w, links, spans, s, done) {
      if t != s {
        var c := LiveThroughKid(w, links, spans, s, t);
      }
    }
    forall t | t in Covered(w, links, spans, s, done) ensures t in LiveSet(w, links, spans, s) {
      if t != s {
        var c :| c in done && Live(w, links, spans, c, t);
        LiveTrans(w, links, spans, s, c, t);
      }
    }
  }

  // -------------------------------------------------- what a walk collects

  predicate InStates(states: States, ts: seq<nat>) {
    forall i :: 0 <= i < |ts| ==> ts[i] < |states|
  }

  function RulesOf(states: States, ts: seq<nat>): seq<nat>
    requires InStates(states, ts)
  {
    if ts == [] then []
    else
      RulesOf(states, ts[..|ts| - 1]) + states[ts[|ts| - 1]].rules
  }

  lemma {:induction false} RulesOfSnoc(states: States, ts: seq<nat>, t: nat)
    requires InStates(states, ts) && t < |states|
    ensures InStates(states, ts + [t]) && RulesOf(states, ts + [t]) == RulesOf(states, ts) + states[t].rules
  {
    assert (ts + [t])[..|ts|] == ts;
  }

  lemma {:induction false} Reassociate(a: seq<nat>, b: seq<nat>, c: seq<nat>)
    ensures a + (b + c) == a + b + c
  {
  }

  lemma {:induction false} RulesOfConcat(states: States, a: seq<nat>, b: seq<nat>)
    requires InStates(states, a) && InStates(states, b)
    ensures InStates(states, a + b)
    ensures RulesOf(states, a + b) == RulesOf(states, a) + RulesOf(states, b)
  {
    if b == [] {
      assert a + b == a;
    } else {
      var init, last := b[..|b| - 1], b[|b| - 1];
      assert b == init + [last];
      RulesOfConcat(states, a, init);
      RulesOfSnoc(states, init, last);
      RulesOfSnoc(states, a + init, last);
      Reassociate(a, init, [last]);
      Reassociate(RulesOf(states, a), RulesOf(states, init), states[last].rules);
    }
  }

  /** What a walk has collected: the rules, the states visited, or the best rule. */
  datatype Acc = Acc(out: seq<nat>, visited: seq<nat>, best: Option<nat>)

  /** From a to b the walk visited vs, which are exactly the states in ts, and collected their rules. */
  ghost predicate CollectedBy(states: States, a: Acc, ts: set<nat>, b: Acc, vs: seq<nat>) {
    && b.visited == a.visited + vs && Distinct(vs) && (forall t :: t in vs <==> t in ts)
    && InStates(states, vs) && b.out == a.out + RulesOf(states, vs)
  }

  /** The walk visited exactly the states in ts, each once, and collected their rules. */
  ghost predicate Collected(states: States, a: Acc, ts: set<nat>, b: Acc) {
    exists vs :: CollectedBy(states, a, ts, b, vs)
  }

  /** Of the best rule before and the visible rules ending in ts, the new best one has the smallest key. */
  ghost predicate Improved(states: States, view: View, a: Option<nat>, ts: set<nat>, b: Option<nat>) {
    && (b == a ||
        (b.Some? && view.Visible(b.value) && exists t :: t in ts && t < |states| && b.value in states[t].rules))
    && (a.Some? ==> b.Some? && view.Order(b.value) <= view.Order(a.value))
    && (forall t, n :: t in ts && t < |states| && n in states[t].rules && view.Visible(n) ==>
          b.Some? && view.Order(b.value) <= view.Order(n))
  }

  ghost predicate Walked(first: bool, states: States, view: View, a: Acc, ts: set<nat>, b: Acc) {
    if first then b.out == a.out && b.visited == a.visited && Improved(states, view, a.best, ts, b.best)
    else b.best == a.best && Collected(states, a, ts, b)
  }

  lemma {:induction false} WalkedTrans(first: bool, states: States, view: View, a: Acc, s: set<nat>, b: Acc,
                                       t: set<nat>, c: Acc)
    requires Walked(first, states, view, a, s, b) && Walked(first, states, view, b, t, c) && s !! t
    ensures Walked(first, states, view, a, s + t, c)
  {
    if first {
      ImprovedTrans(states, view, a.best, s, b.best, t, c.best);
    } else {
      CollectedTrans(states, a, s, b, t, c);
    }
  }

  lemma {:induction false} ImprovedTrans(states: States, view: View, a: Option<nat>, s: set<nat>, b: Option<nat>,
                                         t: set<nat>, c: Option<nat>)
    requires Improved(states, view, a, s, b) && Improved(states, view, b, t, c)
    ensures Improved(states, view, a, s + t, c)
  {
  }

  lemma {:induction false} CollectedTrans(states: States, a: Acc, s: set<nat>, b: Acc, t: set<nat>, c: Acc)
    requires Collected(states, a, s, b) && Collected(states, b, t, c) && s !! t
    ensures Collected(states, a, s + t, c)
  {
    var vs :| CollectedBy(states, a, s, b, vs);
    var us :| CollectedBy(states, b, t, c, us);
    CollectedConcat(states, a, s, vs, t, us);
    assert c.visited == a.visited + (vs + us);
    assert c.out == a.out + (RulesOf(states, vs) + RulesOf(states, us));
    assert CollectedBy(states, a, s + t, c, vs + us);
  }

  lemma {:induction false} CollectedConcat(states: States, a: Acc, s: set<nat>, vs: seq<nat>, t: set<nat>, us: seq<nat>)
    requires s !! t && Distinct(vs) && Distinct(us)
    requires (forall x :: x in vs <==> x in s) && (forall x :: x in us <==> x in t)
    requires InStates(states, vs) && InStates(states, us)
    ensures Distinct(vs + us) && (forall x :: x in vs + us <==> x in s + t)
    ensures InStates(states, vs + us) && RulesOf(states, vs + us) == RulesOf(states, vs) + RulesOf(states, us)
  {
    RulesOfConcat(states, vs, us);
    assert forall i :: 0 <= i < |vs| ==> vs[i] in vs;
    assert forall i :: 0 <= i < |us| ==> us[i] in us;
  }

  // -------------------------------------------------------------- MatchFirst

  /** The key of s bounds the order keys of all rules in its subtree. */
  lemma {:induction false} SubtreeKeys(w: World, states: States, links: Links, spans: seq<Span>, meta: RuleMeta, s: nat,
                                       t: nat, n: nat)
    requires KeysBound(states, links, meta) && s < |states| && t < |states|
    requires Live(w, links, spans, s, t) && n in states[t].rules
    ensures states[s].minKey.Some? && states[s].minKey.value <= OrderIn(meta, n)
  {
    assert KeyOfRules(states[t], meta);
    MinKeysDescend(w, states, links, spans, meta, s, t);
  }

  lemma {:induction false} MinKeysDescend(w: World, states: States, links: Links, spans: seq<Span>, meta: RuleMeta,
                                          s: nat, t: nat)
    requires KeysBound(states, links, meta) && s < |states| && t < |states|
    requires Live(w, links, spans, s, t) && states[t].minKey.Some?
    ensures states[s].minKey.Some? && states[s].minKey.value <= states[t].minKey.value
    decreases t
  {
    if t != s {
      assert KeyOfParent(states, links, t);
      MinKeysDescend(w, states, links, spans, meta, s, links[t].parent);
    }
  }

  /** Nothing in the subtree of s can be better than the best rule so far. */
  predicate Prunable(s: State, view: View, best: Option<nat>) {
    s.minKey.None? || (best.Some? && s.minKey.value >= view.Order(best.value))
  }

  lemma {:induction false} PruneSafe(w: World, states: States, links: Links, spans: seq<Span>, view: View, s: nat,
                                     best: Option<nat>)
    requires KeysBound(states, links, view.meta) && s < |states| && Prunable(states[s], view, best)
    ensures Improved(states, view, best, LiveSet(w, links, spans, s), best)
  {
    forall t, n | t in LiveSet(w, links, spans, s) && t < |states| && n in states[t].rules && view.Visible(n)
      ensures best.Some? && view.Order(best.value) <= view.Order(n)
    {
      SubtreeKeys(w, states, links, spans, view.meta, s, t, n);
    }
  }

  /** consider: the better one of the best rule so far and n, if that is visible. */
  function Consider(view: View, best: Option<nat>, n: nat): Option<nat> {
    if view.Visible(n) && (best.None? || view.Order(n) < view.Order(best.value)) then Some(n) else best
  }

  /** improve: considers the rules ending in a state. */
  method ConsiderAll(view: View, rules: seq<nat>, best: Option<nat>) returns (best': Option<nat>)
    ensures best' == best || (best'.Some? && view.Visible(best'.value) && best'.value in rules)
    ensures best.Some? ==> best'.Some? && view.Order(best'.value) <= view.Order(best.value)
    ensures forall n :: n in rules && view.Visible(n) ==> best'.Some? && view.Order(best'.value) <= view.Order(n)
  {
    best' := best;
    for i := 0 to |rules|
      invariant best' == best || (best'.Some? && view.Visible(best'.value) && best'.value in rules)
      invariant best.Some? ==> best'.Some? && view.Order(best'.value) <= view.Order(best.value)
      invariant forall j :: 0 <= j < i && view.Visible(rules[j]) ==>
                  best'.Some? && view.Order(best'.value) <= view.Order(rules[j])
    {
      best' := Consider(view, best', rules[i]);
    }
  }

  // --------------------------------------------------------------- the kids

  /** The states the absent conditions of s lead to, if they hold. */
  method AbsentKids(w: World, states: States, ghost links: Links, ghost edgeSeq: nat, spans: seq<Span>, s: nat)
    returns (kids: seq<nat>)
    requires Shape(w, states, links, edgeSeq) && GoodSpans(spans) && s < |states|
    ensures Distinct(kids)
    ensures forall c: nat :: c in kids <==> IsKid(w, links, spans, s, c) && links[c].cond.expr.Absent?
  {
    var absent := states[s].absent;
    assert GoodState(w, states[s], edgeSeq);
    kids := [];
    for i := 0 to |absent|
      invariant Distinct(kids)
      invariant forall c: nat :: c in kids <==> AbsentKid(w, states, links, spans, s, i, c)
    {
      var a := absent[i];
      AbsentLink(w, states, links, edgeSeq, s, i);
      forall c: nat ensures AbsentKid(w, states, links, spans, s, i + 1, c) <==>
        AbsentKid(w, states, links, spans, s, i, c) || (c == a.next && FindSpan(spans, a.path).None?)
      {
        AbsentKidStep(w, states, links, edgeSeq, spans, s, i, c);
      }
      AbsentKidStep(w, states, links, edgeSeq, spans, s, i, a.next);
      if FindSpan(spans, a.path).None? {
        kids := kids + [a.next];
      }
    }
    forall c: nat ensures AbsentKid(w, states, links, spans, s, |absent|, c) <==>
                          IsKid(w, links, spans, s, c) && links[c].cond.expr.Absent?
    {
      AbsentKidsAll(w, states, links, edgeSeq, spans, s, c);
    }
  }

  /** c is one of the first n absent kids of s that hold. */
  ghost predicate AbsentKid(w: World, states: States, links: Links, spans: seq<Span>, s: nat, n: nat, c: nat)
    requires s < |states|
  {
    exists i: nat ::
      i < n && i < |states[s].absent| && states[s].absent[i].next == c && At(spans, states[s].absent[i].path) == []
  }

  lemma {:induction false} FindAbsentAt(absent: seq<AbsentEdge>, i: nat)
    requires i < |absent| && forall a, b :: 0 <= a < b < |absent| ==> absent[a].path != absent[b].path
    ensures FindAbsent(absent, absent[i].path) == Some(i)
  {
  }

  lemma {:induction false} AbsentLink(w: World, states: States, links: Links, edgeSeq: nat, s: nat, i: nat)
    requires Shape(w, states, links, edgeSeq) && s < |states| && i < |states[s].absent|
    ensures var a := states[s].absent[i];
            0 < a.next < |links| && links[a.next] == Link(s, NCond(a.path, Absent)) && s < a.next
  {
    assert GoodState(w, states[s], edgeSeq);
    var a := states[s].absent[i];
    FindAbsentAt(states[s].absent, i);
    var c := NCond(a.path, Absent);
    assert Next(states[s], c) == Some(a.next);
    assert LedByLink(states, links, s, c);
    assert LinkLeads(w, states, links, a.next);
  }

  lemma {:induction false} AbsentKidStep(w: World, states: States, links: Links, edgeSeq: nat, spans: seq<Span>, s: nat,
                                         i: nat, c: nat)
    requires Shape(w, states, links, edgeSeq) && GoodSpans(spans) && s < |states| && i < |states[s].absent|
    ensures var a := states[s].absent[i];
            && (AbsentKid(w, states, links, spans, s, i + 1, c) <==>
                AbsentKid(w, states, links, spans, s, i, c) || (c == a.next && FindSpan(spans, a.path).None?))
            && !AbsentKid(w, states, links, spans, s, i, a.next)
  {
    AbsentLink(w, states, links, edgeSeq, s, i);
    assert GoodState(w, states[s], edgeSeq);
    forall j: nat | j < i ensures states[s].absent[j].next != states[s].absent[i].next {
      AbsentLink(w, states, links, edgeSeq, s, j);
    }
  }

  lemma {:induction false} AbsentKidsAll(w: World, states: States, links: Links, edgeSeq: nat, spans: seq<Span>, s: nat,
                                         c: nat)
    requires Shape(w, states, links, edgeSeq) && s < |states|
    ensures AbsentKid(w, states, links, spans, s, |states[s].absent|, c) <==>
            IsKid(w, links, spans, s, c) && links[c].cond.expr.Absent?
  {
    if AbsentKid(w, states, links, spans, s, |states[s].absent|, c) {
      var i: nat :| i < |states[s].absent| && states[s].absent[i].next == c &&
      At(spans, states[s].absent[i].path) == [];
      AbsentLink(w, states, links, edgeSeq, s, i);
    }
    if IsKid(w, links, spans, s, c) && links[c].cond.expr.Absent? {
      assert LinkLeads(w, states, links, c);
      var i := FindAbsent(states[s].absent, links[c].cond.path);
      assert i.Some? && states[s].absent[i.value].next == c;
    }
  }

  /** The edges of a group lead to different states, those of the conditions of the group. */
  lemma {:induction false} EdgeLink(w: World, states: States, links: Links, edgeSeq: nat, s: nat, i: nat, k: Bytes)
    requires Shape(w, states, links, edgeSeq) && s < |states| && i < |states[s].groups|
    requires k in states[s].groups[i].edges
    ensures var g := states[s].groups[i];
            && s < g.edges[k].next < |links|
            && links[g.edges[k].next] == Link(s, NCond(g.path, ExprOf(k)))
            && Key(ExprOf(k)) == k && Canonical(ExprOf(k))
  {
    assert GoodState(w, states[s], edgeSeq) && GoodGroup(w, states[s].groups[i], edgeSeq);
    var g := states[s].groups[i];
    assert GoodKey(w, g, k);
    FindGroupUnique(states[s].groups, i);
    var c := NCond(g.path, ExprOf(k));
    assert Next(states[s], c) == Some(g.edges[k].next);
    assert LedByLink(states, links, s, c);
    assert LinkLeads(w, states, links, g.edges[k].next);
  }
}
