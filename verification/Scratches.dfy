/** The buffers of one Match call and the recursive walk that uses them (engine.go). */
module Scratches {
  import opened ByteStrings
  import opened Sorting
  import opened Expressions
  import opened Semantics
  import opened Groups
  import opened Tries
  import opened Visibility
  import opened Walks

  // ------------------------------------------------------ kids of a group

  function Targets(es: seq<Edge>): (ts: seq<nat>)
    ensures |ts| == |es| && forall i :: 0 <= i < |es| ==> ts[i] == es[i].next
  {
    seq(|es|, i requires 0 <= i < |es| => es[i].next)
  }

  /** c is a kid of s on path, other than an absent one. */
  ghost predicate IsGroupKid(w: World, links: Links, spans: seq<Span>, s: nat, path: Bytes, c: nat) {
    IsKid(w, links, spans, s, c) && links[c].cond.path == path && !links[c].cond.expr.Absent?
  }

  lemma {:induction false} FollowedIsKid(w: World, states: States, links: Links, edgeSeq: nat, spans: seq<Span>, s: nat,
                                         i: nat, e: Edge)
    requires Shape(w, states, links, edgeSeq) && s < |states| && i < |states[s].groups|
    requires Follows(w, states[s].groups[i], At(spans, states[s].groups[i].path), e)
    requires At(spans, states[s].groups[i].path) != []
    ensures IsGroupKid(w, links, spans, s, states[s].groups[i].path, e.next)
  {
    var g := states[s].groups[i];
    var k :| k in g.edges && g.edges[k] == e && Holds(w, ExprOf(k), At(spans, g.path));
    EdgeLink(w, states, links, edgeSeq, s, i, k);
  }

  lemma {:induction false} KidIsFollowed(w: World, states: States, links: Links, edgeSeq: nat, spans: seq<Span>, s: nat,
                                         i: nat, c: nat) returns (e: Edge)
    requires Shape(w, states, links, edgeSeq) && s < |states| && i < |states[s].groups|
    requires IsGroupKid(w, links, spans, s, states[s].groups[i].path, c)
    ensures Follows(w, states[s].groups[i], At(spans, states[s].groups[i].path), e) && e.next == c
  {
    assert GoodState(w, states[s], edgeSeq);
    assert LinkLeads(w, states, links, c);
    FindGroupUnique(states[s].groups, i);
    var k := Key(links[c].cond.expr);
    e := states[s].groups[i].edges[k];
    ParseKeyInvertsKey(links[c].cond.expr);
  }

  lemma {:induction false} DifferentTargets(w: World, states: States, links: Links, edgeSeq: nat, s: nat, i: nat,
                                            k: Bytes, k': Bytes)
    requires Shape(w, states, links, edgeSeq) && s < |states| && i < |states[s].groups|
    requires k in states[s].groups[i].edges && k' in states[s].groups[i].edges
    requires states[s].groups[i].edges[k].next == states[s].groups[i].edges[k'].next
    ensures k == k'
  {
    EdgeLink(w, states, links, edgeSeq, s, i, k);
    EdgeLink(w, states, links, edgeSeq, s, i, k');
  }

  /** Following the edges that hold leads to the kids on the path, each once. */
  lemma {:induction false} TargetsAreKids(w: World, states: States, links: Links, edgeSeq: nat, spans: seq<Span>,
                                          s: nat, i: nat, es: seq<Edge>)
    requires Shape(w, states, links, edgeSeq) && s < |states| && i < |states[s].groups|
    requires At(spans, states[s].groups[i].path) != [] && Distinct(es)
    requires forall e :: e in es <==> Follows(w, states[s].groups[i], At(spans, states[s].groups[i].path), e)
    ensures Distinct(Targets(es))
    ensures forall c: nat :: c in Targets(es) <==> IsGroupKid(w, links, spans, s, states[s].groups[i].path, c)
  {
    var g, ts := states[s].groups[i], Targets(es);
    forall a, b | 0 <= a < b < |es| ensures ts[a] != ts[b] {
      assert es[a] in es && es[b] in es;
      var k :| k in g.edges && g.edges[k] == es[a];
      var k' :| k' in g.edges && g.edges[k'] == es[b];
      if ts[a] == ts[b] {
        DifferentTargets(w, states, links, edgeSeq, s, i, k, k');
      }
    }
    forall c: nat ensures c in ts <==> IsGroupKid(w, links, spans, s, g.path, c) {
      if c in ts {
        var a :| 0 <= a < |ts| && ts[a] == c;
        assert es[a] in es;
        FollowedIsKid(w, states, links, edgeSeq, spans, s, i, es[a]);
      }
      if IsGroupKid(w, links, spans, s, g.path, c) {
        var e := KidIsFollowed(w, states, links, edgeSeq, spans, s, i, c);
        var a :| 0 <= a < |es| && es[a] == e;
        assert ts[a] == c;
      }
    }
  }

  // --------------------------------------------- which groups are evaluated

  /** The groups i with a span, each once. */
  ghost predicate Evaluated(groups: seq<Group>, spans: seq<Span>, todo: seq<nat>) {
    && Distinct(todo) && (forall i: nat :: i in todo <==> i < |groups| && FindSpan(spans, groups[i].path).Some?)
    && (forall j :: 0 <= j < |todo| ==> todo[j] < |groups| && FindSpan(spans, groups[todo[j]].path).Some?)
  }

  /** visit looks up the path of every group, or the group of every path, whichever are fewer. */
  method GroupsToEvaluate(groups: seq<Group>, spans: seq<Span>) returns (todo: seq<nat>)
    requires GoodSpans(spans) && forall i, j :: 0 <= i < j < |groups| ==> groups[i].path != groups[j].path
    ensures Evaluated(groups, spans, todo)
  {
    todo := [];
    if |groups| <= |spans| {
      for i := 0 to |groups|
        invariant Distinct(todo)
        invariant forall n: nat :: n in todo <==> n < i && FindSpan(spans, groups[n].path).Some?
      {
        if FindSpan(spans, groups[i].path).Some? {
          todo := todo + [i];
        }
      }
    } else {
      for j := 0 to |spans|
        invariant Distinct(todo)
        invariant forall n: nat :: n in todo <==> n < |groups| && SpanBefore(spans, j, groups[n].path)
      {
        var i := FindGroup(groups, spans[j].path);
        forall n: nat | n < |groups|
          ensures SpanBefore(spans, j + 1, groups[n].path) <==> SpanBefore(spans, j, groups[n].path) || i == Some(n)
          ensures i == Some(n) ==> !SpanBefore(spans, j, groups[n].path)
        {
          if groups[n].path == spans[j].path {
            FindGroupUnique(groups, n);
          }
        }
        if i.Some? {
          todo := todo + [i.value];
        }
      }
    }
    assert forall j :: 0 <= j < |todo| ==> todo[j] in todo;
  }

  ghost predicate SpanBefore(spans: seq<Span>, j: nat, path: Bytes) {
    exists k :: 0 <= k < j && k < |spans| && spans[k].path == path
  }

  // ----------------------------------------------------------- MatchFirst

  /** The order in which MatchFirst visits subtrees: smallest order key first, none last. */
  predicate KeyAtMost(states: States, a: nat, b: nat) {
    if a >= |states| || states[a].minKey.None? then b >= |states| || states[b].minKey.None?
    else b >= |states| || states[b].minKey.None? || states[a].minKey.value <= states[b].minKey.value
  }

  function ByMinKey(states: States): (Edge, Edge) -> bool {
    (a: Edge, b: Edge) => KeyAtMost(states, a.next, b.next)
  }

  lemma {:induction false} PermutationDistinct<T>(a: seq<T>, b: seq<T>)
    requires multiset(a) == multiset(b) && Distinct(a)
    ensures Distinct(b) && forall x :: x in b <==> x in a
  {
    forall x ensures x in b <==> x in a {
      assert x in multiset(b) <==> x in multiset(a);
    }
    forall i, j | 0 <= i < j < |b| ensures b[i] != b[j] {
      DistinctCount(a, b[i]);
      assert b == b[..i] + [b[i]] + b[i + 1..j] + [b[j]] + b[j + 1..];
    }
  }

  lemma {:induction false} DistinctCount<T>(a: seq<T>, x: T)
    requires Distinct(a)
    ensures multiset(a)[x] <= 1
  {
    if a != [] {
      DistinctCount(a[1..], x);
      assert a == [a[0]] + a[1..];
      assert a[0] == x ==> x !in a[1..];
    }
  }

  // ---------------------------------------------------------------- the walk

  ghost function ElementsOf(s: seq<nat>): set<nat> {
    set c | c in s
  }

  /** The kids in done, and everything live below them, were walked after s itself. */
  ghost predicate WalkedKids(first: bool, w: World, states: States, links: Links, spans: seq<Span>, view: View,
                             a: Acc, s: nat, done: set<nat>, b: Acc)
  {
    && (forall c :: c in done ==> IsKid(w, links, spans, s, c))
    && Walked(first, states, view, a, Covered(w, links, spans, s, done), b)
  }

  lemma {:induction false} WalkedOneKid(first: bool, w: World, states: States, links: Links, spans: seq<Span>,
                                        view: View,
                                        a: Acc, s: nat, done: set<nat>, b: Acc, c: nat, b': Acc)
    requires s < |links| && WalkedKids(first, w, states, links, spans, view, a, s, done, b)
    requires IsKid(w, links, spans, s, c) && c !in done
    requires Walked(first, states, view, b, LiveSet(w, links, spans, c), b')
    ensures WalkedKids(first, w, states, links, spans, view, a, s, done + {c}, b')
  {
    CoverMore(w, links, spans, s, done, c);
    WalkedTrans(first, states, view, a, Covered(w, links, spans, s, done), b, LiveSet(w, links, spans, c), b');
  }

  lemma {:induction false} NoKidsYet(w: World, links: Links, spans: seq<Span>, s: nat)
    requires s < |links|
    ensures Covered(w, links, spans, s, {}) == {s}
  {
  }

  /** Collecting the rules of s itself. */
  lemma {:induction false} CollectedHere(states: States, a: Acc, s: nat)
    requires s < |states|
    ensures Collected(states, a, {s}, Acc(a.out + states[s].rules, a.visited + [s], a.best))
  {
    var vs := [s];
    assert vs[..0] == [];
    assert RulesOf(states, vs) == RulesOf(states, []) + states[s].rules;
    assert CollectedBy(states, a, {s}, Acc(a.out + states[s].rules, a.visited + vs, a.best), vs);
  }

  ghost predicate AbsentDone(w: World, links: Links, spans: seq<Span>, s: nat, done: set<nat>) {
    forall c: nat :: c in done <==> IsKid(w, links, spans, s, c) && links[c].cond.expr.Absent?
  }

  predicate InGroups(s: State, todo: seq<nat>) {
    forall j :: 0 <= j < |todo| ==> todo[j] < |s.groups|
  }

  /** c is a kid reached by an absent condition or through one of the groups todo[..n]. */
  ghost predicate Reached(w: World, states: States, links: Links, spans: seq<Span>, s: nat, todo: seq<nat>, n: nat,
                          c: nat)
    requires s < |states| && n <= |todo| && InGroups(states[s], todo)
  {
    || (IsKid(w, links, spans, s, c) && links[c].cond.expr.Absent?)
    || exists j :: 0 <= j < n && IsGroupKid(w, links, spans, s, states[s].groups[todo[j]].path, c)
  }

  ghost predicate GroupsDone(w: World, states: States, links: Links, spans: seq<Span>, s: nat, todo: seq<nat>, n: nat,
                             done: set<nat>)
    requires s < |states| && n <= |todo| && InGroups(states[s], todo)
  {
    forall c: nat :: c in done <==> Reached(w, states, links, spans, s, todo, n, c)
  }

  /** Once all groups with a span are evaluated, all kids were reached. */
  lemma {:induction false} AllKidsReached(w: World, states: States, links: Links, edgeSeq: nat, spans: seq<Span>,
                                          s: nat, todo: seq<nat>, c: nat)
    requires Shape(w, states, links, edgeSeq) && GoodSpans(spans) && s < |states|
    requires Evaluated(states[s].groups, spans, todo)
    ensures Reached(w, states, links, spans, s, todo, |todo|, c) <==> IsKid(w, links, spans, s, c)
  {
    if IsKid(w, links, spans, s, c) && !links[c].cond.expr.Absent? {
      assert LinkLeads(w, states, links, c);
      var i := FindGroup(states[s].groups, links[c].cond.path);
      assert i.Some? && i.value in todo;
      var j :| 0 <= j < |todo| && todo[j] == i.value;
      assert IsGroupKid(w, links, spans, s, states[s].groups[todo[j]].path, c);
    }
  }

  /** The groups todo[..n] are on other paths than the next one. */
  ghost predicate OtherPaths(s: State, todo: seq<nat>, n: nat)
    requires n < |todo| && InGroups(s, todo)
  {
    forall j :: 0 <= j < n ==> s.groups[todo[j]].path != s.groups[todo[n]].path
  }

  lemma {:induction false} GroupsOnOtherPaths(w: World, s: State, edgeSeq: nat, todo: seq<nat>, n: nat)
    requires GoodState(w, s, edgeSeq) && Distinct(todo) && n < |todo| && InGroups(s, todo)
    ensures OtherPaths(s, todo, n)
  {
    forall j | 0 <= j < n ensures s.groups[todo[j]].path != s.groups[todo[n]].path {
      assert todo[j] != todo[n];
    }
  }

  /** The kids of one more group have not been walked yet. */
  lemma {:induction false} GroupKidsNew(w: World, states: States, links: Links, spans: seq<Span>, s: nat,
                                        todo: seq<nat>, n: nat, done: set<nat>, kids: seq<nat>)
    requires s < |states| && n < |todo| && InGroups(states[s], todo) && OtherPaths(states[s], todo, n)
    requires GroupsDone(w, states, links, spans, s, todo, n, done)
    requires forall c: nat :: c in kids <==> IsGroupKid(w, links, spans, s, states[s].groups[todo[n]].path, c)
    ensures forall c :: c in kids ==> c !in done
    ensures GroupsDone(w, states, links, spans, s, todo, n + 1, done + ElementsOf(kids))
  {
    forall c: nat ensures Reached(w, states, links, spans, s, todo, n + 1, c) <==>
                          Reached(w, states, links, spans, s, todo, n, c) || c in kids
    {
    }
  }

  class Scratch {
    const w: World
    const spans: seq<Span>
    const view: View
    const first: bool
    var edges: seq<Edge>
    var out: seq<nat>
    var best: Option<nat>
    ghost var visited: seq<nat>

    constructor (w: World, spans: seq<Span>, view: View, first: bool)
      ensures this.w == w && this.spans == spans && this.view == view && this.first == first
      ensures Current() == Acc([], [], None)
    {
      this.w, this.spans, this.view, this.first := w, spans, view, first;
      edges, out, best, visited := [], [], None, [];
    }

    ghost function Current(): Acc
      reads this
    {
      Acc(out, visited, best)
    }

    ghost predicate Ready(states: States, links: Links, edgeSeq: nat)
    {
      w.Lawful() && Shape(w, states, links, edgeSeq) && GoodSpans(spans) &&
      (first ==> KeysBound(states, links, view.meta))
    }

    /** visit: collects the rules of s and follows every condition that holds. */
    method Visit(states: States, s: nat, ghost links: Links, ghost edgeSeq: nat)
      requires Ready(states, links, edgeSeq) && s < |states|
      modifies this
      ensures Walked(first, states, view, old(Current()), LiveSet(w, links, spans, s), Current())
      ensures edges == old(edges)
      decreases |states| - s, 3
    {
      ghost var a := Current();
      if first && Prunable(states[s], view, best) {
        PruneSafe(w, states, links, spans, view, s, best);
        return;
      }
      VisitHere(states, s);
      NoKidsYet(w, links, spans, s);
      var absent := AbsentKids(w, states, links, edgeSeq, spans, s);
      VisitKids(states, s, absent, links, edgeSeq, a, {});
      ghost var done := {} + ElementsOf(absent);
      assert GoodState(w, states[s], edgeSeq);
      var todo := GroupsToEvaluate(states[s].groups, spans);
      done := VisitGroups(states, s, todo, links, edgeSeq, a, done);
      forall c: nat ensures c in done <==> IsKid(w, links, spans, s, c) {
        AllKidsReached(w, states, links, edgeSeq, spans, s, todo, c);
      }
      CoverAll(w, links, spans, s, done);
    }

    /** The rules ending in s: improve for MatchFirst, appendRules otherwise. */
    method VisitHere(states: States, s: nat)
      requires s < |states|
      modifies this
      ensures Walked(first, states, view, old(Current()), {s}, Current())
      ensures edges == old(edges)
    {
      if first {
        best := ConsiderAll(view, states[s].rules, best);
      } else {
        CollectedHere(states, Current(), s);
        out := out + states[s].rules;
        visited := visited + [s];
      }
    }

    method VisitKids(states: States, s: nat, kids: seq<nat>, ghost links: Links, ghost edgeSeq: nat, ghost a: Acc,
                     ghost done: set<nat>)
      requires Ready(states, links, edgeSeq) && s < |states| && Distinct(kids)
      requires forall c :: c in kids ==> IsKid(w, links, spans, s, c) && c !in done
      requires WalkedKids(first, w, states, links, spans, view, a, s, done, Current())
      modifies this
      ensures WalkedKids(first, w, states, links, spans, view, a, s, done + ElementsOf(kids), Current())
      ensures edges == old(edges)
      decreases |states| - s, 0
    {
      ghost var walked := done;
      for i := 0 to |kids|
        invariant walked == done + ElementsOf(kids[..i])
        invariant WalkedKids(first, w, states, links, spans, view, a, s, walked, Current())
        invariant edges == old(edges)
      {
        NextKid(kids, i, done);
        ghost var b := Current();
        Visit(states, kids[i], links, edgeSeq);
        WalkedOneKid(first, w, states, links, spans, view, a, s, walked, b, kids[i], Current());
        walked := walked + {kids[i]};
      }
      TakeAll(kids);
    }

    method VisitGroups(states: States, s: nat, todo: seq<nat>, ghost links: Links, ghost edgeSeq: nat, ghost a: Acc,
                       ghost start: set<nat>)
      returns (ghost done: set<nat>)
      requires Ready(states, links, edgeSeq) && s < |states| && Evaluated(states[s].groups, spans, todo)
      requires AbsentDone(w, links, spans, s, start)
      requires WalkedKids(first, w, states, links, spans, view, a, s, start, Current())
      modifies this
      ensures GroupsDone(w, states, links, spans, s, todo, |todo|, done)
      ensures WalkedKids(first, w, states, links, spans, view, a, s, done, Current())
      ensures edges == old(edges)
      decreases |states| - s, 2
    {
      done := start;
      for n := 0 to |todo|
        invariant GroupsDone(w, states, links, spans, s, todo, n, done)
        invariant WalkedKids(first, w, states, links, spans, view, a, s, done, Current())
        invariant edges == old(edges)
      {
        done := VisitGroup(states, s, todo, n, links, edgeSeq, a, done);
      }
    }

    /** evalGroup: pushes the edges that hold, visits their targets, and pops them again. */
    method VisitGroup(states: States, s: nat, todo: seq<nat>, n: nat, ghost links: Links, ghost edgeSeq: nat,
                      ghost a: Acc, ghost done: set<nat>)
      returns (ghost more: set<nat>)
      requires Ready(states, links, edgeSeq) && s < |states| && Evaluated(states[s].groups, spans, todo)
      requires n < |todo| && GroupsDone(w, states, links, spans, s, todo, n, done)
      requires WalkedKids(first, w, states, links, spans, view, a, s, done, Current())
      modifies this
      ensures GroupsDone(w, states, links, spans, s, todo, n + 1, more)
      ensures WalkedKids(first, w, states, links, spans, view, a, s, more, Current())
      ensures edges == old(edges)
      decreases |states| - s, 1
    {
      var start := |edges|;
      ghost var b := Current();
      var kids := PushEdges(states, s, todo[n], links, edgeSeq);
      more := done + ElementsOf(kids);
      assert GoodState(w, states[s], edgeSeq);
      GroupsOnOtherPaths(w, states[s], edgeSeq, todo, n);
      GroupKidsNew(w, states, links, spans, s, todo, n, done, kids);
      assert b == Current();
      VisitKids(states, s, kids, links, edgeSeq, a, done);
      edges := edges[..start];
    }

    method PushEdges(states: States, s: nat, i: nat, ghost links: Links, ghost edgeSeq: nat) returns (kids: seq<nat>)
      requires Ready(states, links, edgeSeq) && s < |states| && i < |states[s].groups|
      requires FindSpan(spans, states[s].groups[i].path).Some?
      modifies this
      ensures Current() == old(Current()) && |old(edges)| <= |edges| && edges[..|old(edges)|] == old(edges)
      ensures Distinct(kids)
      ensures forall c: nat :: c in kids <==> IsGroupKid(w, links, spans, s, states[s].groups[i].path, c)
    {
      var es := HoldingEdges(w, states, s, i, links, edgeSeq, spans, first);
      edges := edges + es;
      kids := Targets(es);
    }
  }

  lemma {:induction false} NextKid(kids: seq<nat>, i: nat, done: set<nat>)
    requires i < |kids| && Distinct(kids) && forall c :: c in kids ==> c !in done
    ensures kids[i] in kids && kids[i] !in done + ElementsOf(kids[..i])
    ensures done + ElementsOf(kids[..i + 1]) == done + ElementsOf(kids[..i]) + {kids[i]}
  {
    assert kids[..i + 1] == kids[..i] + [kids[i]];
  }

  /** The edges of group i of s that hold, for MatchFirst in the order of their keys. */
  method HoldingEdges(w: World, states: States, s: nat, i: nat, ghost links: Links, ghost edgeSeq: nat,
                      spans: seq<Span>, first: bool)
    returns (es: seq<Edge>)
    requires w.Lawful() && Shape(w, states, links, edgeSeq) && GoodSpans(spans) && s < |states|
    requires i < |states[s].groups|
    requires FindSpan(spans, states[s].groups[i].path).Some?
    ensures Distinct(Targets(es))
    ensures forall c: nat :: c in Targets(es) <==> IsGroupKid(w, links, spans, s, states[s].groups[i].path, c)
  {
    assert GoodState(w, states[s], edgeSeq) && GoodGroup(w, states[s].groups[i], edgeSeq);
    var g := states[s].groups[i];
    es := EvalGroup(w, g, spans[FindSpan(spans, g.path).value].values);
    if first && |es| > 1 {
      SortContent(ByMinKey(states), es);
      PermutationDistinct(es, Sort(ByMinKey(states), es));
      es := Sort(ByMinKey(states), es);
    }
    TargetsAreKids(w, states, links, edgeSeq, spans, s, i, es);
  }
}
