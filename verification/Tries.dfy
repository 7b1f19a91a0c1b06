/**
 * The trie of the rules (engine.go). States are numbered; a number stands for
 * a pointer, and state 0 is the root.
 */
module Tries {
  import opened ByteStrings
  import opened Expressions
  import opened Semantics
  import opened ValueIndex
  import opened Groups
  import opened GroupGrowth
  import opened Visibility
  import Paths

  /** A condition {"exists": false}. */
  datatype AbsentEdge = AbsentEdge(path: Bytes, next: nat)

  /** minKey is the smallest order key of the rules in the subtree, if there are any. */
  datatype State = State(groups: seq<Group>, absent: seq<AbsentEdge>, rules: seq<nat>, minKey: Option<nat>)

  /** The state a state was added to, and the condition that leads from there. */
  datatype Link = Link(parent: nat, cond: NCond)

  const NEW_STATE := State([], [], [], None)

  type States = seq<State>
  type Links = seq<Link>

  function FindGroup(groups: seq<Group>, path: Bytes): (i: Option<nat>)
    ensures i.Some? ==> i.value < |groups| && groups[i.value].path == path
    ensures i.None? ==> forall j :: 0 <= j < |groups| ==> groups[j].path != path
  {
    if groups == [] then None
    else if groups[0].path == path then Some(0)
    else
      match FindGroup(groups[1..], path)
      case None => None
      case Some(j) => Some(j + 1)
  }

  function FindAbsent(absent: seq<AbsentEdge>, path: Bytes): (i: Option<nat>)
    ensures i.Some? ==> i.value < |absent| && absent[i.value].path == path
    ensures i.None? ==> forall j :: 0 <= j < |absent| ==> absent[j].path != path
  {
    if absent == [] then None
    else if absent[0].path == path then Some(0)
    else
      match FindAbsent(absent[1..], path)
      case None => None
      case Some(j) => Some(j + 1)
  }

  /** The state the condition c leads to. */
  function Next(s: State, c: NCond): Option<nat> {
    if c.expr.Absent? then
      match FindAbsent(s.absent, c.path)
      case None => None
      case Some(i) => Some(s.absent[i].next)
    else
      match FindGroup(s.groups, c.path)
      case None => None
      case Some(i) =>
        if Key(c.expr) in s.groups[i].edges then Some(s.groups[i].edges[Key(c.expr)].next) else None
  }

  /** The paths of the conditions leaving s are recorded. */
  ghost predicate PathsIn(s: State, paths: set<Bytes>) {
    && (forall i :: 0 <= i < |s.groups| ==> s.groups[i].path in paths)
    && (forall i :: 0 <= i < |s.absent| ==> s.absent[i].path in paths)
  }

  ghost predicate PathsKnown(states: States, known: Paths.Index) {
    Paths.Valid(known) && forall s :: 0 <= s < |states| ==> PathsIn(states[s], known.paths)
  }

  /** The path of every condition is recorded. */
  lemma {:induction false} CondPathKnown(w: World, states: States, links: Links, known: Paths.Index, t: nat)
    requires Linked(w, states, links) && PathsKnown(states, known) && 0 < t < |states|
    ensures links[t].cond.path in known.paths
  {
    assert LinkLeads(w, states, links, t);
    assert PathsIn(states[links[t].parent], known.paths);
  }

  lemma {:induction false} MorePathsKnown(states: States, known: Paths.Index, known': Paths.Index)
    requires PathsKnown(states, known) && Paths.Valid(known') && known.paths <= known'.paths
    ensures PathsKnown(states, known')
  {
    forall q | 0 <= q < |states| ensures PathsIn(states[q], known'.paths) {
      assert PathsIn(states[q], known.paths);
    }
  }

  lemma {:induction false} StatePathsKnown(states: States, known: Paths.Index, s: nat, s': State)
    requires PathsKnown(states, known) && s < |states| && PathsIn(s', known.paths)
    ensures PathsKnown(states[s := s'], known) && PathsKnown(Attach(states, s, s'), known)
  {
  }

  /** Changes that keep the paths of all states keep them recorded. */
  lemma {:induction false} SamePathsKnown(states: States, known: Paths.Index, s: nat, s': State)
    requires PathsKnown(states, known) && s < |states| && |s'.groups| == |states[s].groups|
    requires s'.absent == states[s].absent
    requires forall i :: 0 <= i < |s'.groups| ==> s'.groups[i].path == states[s].groups[i].path
    ensures PathsKnown(states[s := s'], known) && PathsKnown(Attach(states, s, s'), known)
  {
    assert PathsIn(states[s], known.paths);
  }

  // ------------------------------------------------------------ invariant

  ghost predicate GoodCond(w: World, c: NCond) {
    WellFormed(c) && GoodExpr(w, c.expr)
  }

  ghost predicate GoodGroup(w: World, g: Group, edgeSeq: nat) {
    Groups.Valid(w, g) && g.path != [] && FreshId(g, edgeSeq + 1)
  }

  /** The groups of a state are valid and have different paths, and so do its absent edges. */
  ghost predicate GoodState(w: World, s: State, edgeSeq: nat) {
    && (forall i :: 0 <= i < |s.groups| ==> GoodGroup(w, s.groups[i], edgeSeq))
    && (forall i, j :: 0 <= i < j < |s.groups| ==> s.groups[i].path != s.groups[j].path)
    && (forall i :: 0 <= i < |s.absent| ==> s.absent[i].path != [])
    && (forall i, j :: 0 <= i < j < |s.absent| ==> s.absent[i].path != s.absent[j].path)
  }

  /** The condition of the link of t leads to t. */
  ghost predicate LinkLeads(w: World, states: States, links: Links, t: nat)
    requires 0 < t < |states| == |links|
  {
    links[t].parent < t && GoodCond(w, links[t].cond) && Next(states[links[t].parent], links[t].cond) == Some(t)
  }

  /** If the condition c leads from s anywhere, it is the condition of the link there. */
  ghost predicate LedByLink(states: States, links: Links, s: nat, c: NCond)
    requires s < |states| == |links|
  {
    var t := Next(states[s], c);
    t.Some? ==> 0 < t.value < |states| && links[t.value] == Link(s, c)
  }

  /** Conditions lead exactly from a state to the states that were added to it. */
  ghost predicate Linked(w: World, states: States, links: Links) {
    && |links| == |states| && states != []
    && (forall t {:trigger LinkLeads(w, states, links, t)} :: 0 < t < |states| ==> LinkLeads(w, states, links, t))
    && (forall s, c {:trigger LedByLink(states, links, s, c)} ::
          0 <= s < |states| && WellFormed(c) ==> LedByLink(states, links, s, c))
  }

  ghost predicate Shape(w: World, states: States, links: Links, edgeSeq: nat) {
    && Linked(w, states, links)
    && forall s :: 0 <= s < |states| ==> GoodState(w, states[s], edgeSeq)
  }

  /** The conditions from the root to t. */
  ghost function Trail(links: Links, t: nat): seq<NCond>
    requires t < |links|
    decreases t
  {
    if t == 0 || links[t].parent >= t then [] else Trail(links, links[t].parent) + [links[t].cond]
  }

  /** Different states have different trails. */
  lemma {:induction false} TrailInjective(w: World, states: States, links: Links, s: nat, t: nat)
    requires Linked(w, states, links) && s < |states| && t < |states| && Trail(links, s) == Trail(links, t)
    ensures s == t
    decreases s
  {
    if s > 0 {
      TrailUnfold(w, states, links, s);
    }
    if t > 0 {
      TrailUnfold(w, states, links, t);
    }
    if s > 0 && t > 0 {
      var a, b := Trail(links, links[s].parent), Trail(links, links[t].parent);
      SnocInjective(a, links[s].cond, b, links[t].cond);
      TrailInjective(w, states, links, links[s].parent, links[t].parent);
    }
  }

  lemma {:induction false} SnocInjective<T>(a: seq<T>, x: T, b: seq<T>, y: T)
    requires a + [x] == b + [y]
    ensures a == b && x == y
  {
    assert |a + [x]| == |b + [y]|;
    assert (a + [x])[..|a|] == a && (b + [y])[..|b|] == b;
    assert (a + [x])[|a|] == x && (b + [y])[|b|] == y;
  }

  lemma {:induction false} TrailUnfold(w: World, states: States, links: Links, t: nat)
    requires Linked(w, states, links) && 0 < t < |states|
    ensures links[t].parent < t && Trail(links, t) == Trail(links, links[t].parent) + [links[t].cond]
    ensures Next(states[links[t].parent], links[t].cond) == Some(t)
  {
    assert LinkLeads(w, states, links, t);
  }

  lemma {:induction false} TrailStable(links: Links, more: Links, t: nat)
    requires t < |links| <= |more| && links == more[..|links|]
    ensures Trail(more, t) == Trail(links, t)
    decreases t
  {
    assert more[t] == links[t];
    if t > 0 && links[t].parent < t {
      TrailStable(links, more, links[t].parent);
    }
  }

  /** A rule n ends where the conditions conds lead. */
  ghost predicate HasRule(states: States, links: Links, conds: seq<NCond>, n: nat) {
    |links| == |states| && exists t :: 0 <= t < |states| && Trail(links, t) == conds && n in states[t].rules
  }

  /** The key of a state is at most the order keys of the rules ending there. */
  ghost predicate KeyOfRules(s: State, meta: RuleMeta) {
    forall n :: n in s.rules ==> s.minKey.Some? && s.minKey.value <= OrderIn(meta, n)
  }

  /** The key of the state before t is at most that of t. */
  ghost predicate KeyOfParent(states: States, links: Links, t: nat)
    requires 0 < t < |states| == |links|
  {
    var p := links[t].parent;
    p < t && states[t].minKey.Some? ==> states[p].minKey.Some? && states[p].minKey.value <= states[t].minKey.value
  }

  /** Keys bound the order keys of the rules below: locally, and along the links. */
  ghost predicate KeysBound(states: States, links: Links, meta: RuleMeta) {
    && |links| == |states|
    && (forall t :: 0 <= t < |states| ==> KeyOfRules(states[t], meta))
    && (forall t :: 0 < t < |states| ==> KeyOfParent(states, links, t))
  }

  // ----------------------------------------------------- adding conditions

  /** The states afterwards are those before, with the same rules, and new ones without rules. */
  ghost predicate Extended(states: States, links: Links, states': States, links': Links) {
    && |links| == |states| <= |states'| == |links'| && links == links'[..|links|]
    && (forall t :: 0 <= t < |states| ==> states'[t].rules == states[t].rules)
    && (forall t :: |states| <= t < |states'| ==> states'[t].rules == [])
  }

  ghost predicate SameKeys(states: States, states': States) {
    && |states| <= |states'|
    && (forall t :: 0 <= t < |states| ==> states'[t].minKey == states[t].minKey)
    && (forall t :: |states| <= t < |states'| ==> states'[t].minKey == None)
  }

  lemma {:induction false} FindGroupUnique(groups: seq<Group>, i: nat)
    requires i < |groups| && forall a, b :: 0 <= a < b < |groups| ==> groups[a].path != groups[b].path
    ensures FindGroup(groups, groups[i].path) == Some(i)
  {
  }

  /** State s after the group i got the condition c with the target t. */
  ghost predicate GroupLeads(s: State, s': State, i: nat, c: NCond, t: nat) {
    && i < |s.groups| && s.groups[i].path == c.path && !c.expr.Absent?
    && |s'.groups| == |s.groups| && s'.absent == s.absent
    && (forall j :: 0 <= j < |s.groups| && j != i ==> s'.groups[j] == s.groups[j])
    && s'.groups[i].path == c.path
    && Key(c.expr) in s'.groups[i].edges && s'.groups[i].edges[Key(c.expr)].next == t
    && s'.groups[i].edges == s.groups[i].edges[Key(c.expr) := s'.groups[i].edges[Key(c.expr)]]
  }

  lemma {:induction false} FindGroupSamePaths(groups: seq<Group>, groups': seq<Group>, path: Bytes)
    requires |groups| == |groups'| && forall i :: 0 <= i < |groups| ==> groups'[i].path == groups[i].path
    ensures FindGroup(groups', path) == FindGroup(groups, path)
  {
    if groups != [] {
      FindGroupSamePaths(groups[1..], groups'[1..], path);
    }
  }

  lemma {:induction false} FindGroupAppend(groups: seq<Group>, g: Group, path: Bytes)
    ensures FindGroup(groups + [g], path) ==
            if FindGroup(groups, path).Some? then FindGroup(groups, path)
            else if g.path == path then Some(|groups|) else None
  {
    if groups != [] {
      FindGroupAppend(groups[1..], g, path);
      assert (groups + [g])[1..] == groups[1..] + [g];
    }
  }

  lemma {:induction false} FindAbsentAppend(absent: seq<AbsentEdge>, a: AbsentEdge, path: Bytes)
    ensures FindAbsent(absent + [a], path) ==
            if FindAbsent(absent, path).Some? then FindAbsent(absent, path)
            else if a.path == path then Some(|absent|) else None
  {
    if absent != [] {
      FindAbsentAppend(absent[1..], a, path);
      assert (absent + [a])[1..] == absent[1..] + [a];
    }
  }

  /** Only c leads anywhere new. */
  ghost predicate Leads(s: State, s': State, c: NCond, t: nat) {
    forall d :: WellFormed(d) ==> Next(s', d) == if d == c then Some(t) else Next(s, d)
  }

  lemma {:induction false} GroupLeadsThere(s: State, s': State, i: nat, c: NCond, t: nat)
    requires GroupLeads(s, s', i, c, t) && WellFormed(c) && FindGroup(s.groups, c.path) == Some(i)
    ensures Leads(s, s', c, t)
  {
    forall d | WellFormed(d) ensures Next(s', d) == if d == c then Some(t) else Next(s, d) {
      FindGroupSamePaths(s.groups, s'.groups, d.path);
      if !d.expr.Absent? && Key(d.expr) == Key(c.expr) {
        KeyInjective(d.expr, c.expr);
      }
    }
  }

  lemma {:induction false} AbsentLeadsThere(s: State, c: NCond, t: nat)
    requires WellFormed(c) && c.expr.Absent? && FindAbsent(s.absent, c.path).None?
    ensures Leads(s, s.(absent := s.absent + [AbsentEdge(c.path, t)]), c, t)
  {
    forall d | WellFormed(d)
      ensures Next(s.(absent := s.absent + [AbsentEdge(c.path, t)]), d) == if d == c then Some(t) else Next(s, d)
    {
      FindAbsentAppend(s.absent, AbsentEdge(c.path, t), d.path);
    }
  }

  /** A group without conditions leads nowhere. */
  lemma {:induction false} EmptyGroupLeadsNowhere(s: State, path: Bytes, d: NCond)
    requires FindGroup(s.groups, path).None?
    ensures Next(s.(groups := s.groups + [NewGroup(path)]), d) == Next(s, d)
    ensures FindGroup(s.groups + [NewGroup(path)], path) == Some(|s.groups|)
  {
    FindGroupAppend(s.groups, NewGroup(path), d.path);
    FindGroupAppend(s.groups, NewGroup(path), path);
  }

  /** The states after the condition c of state s got a state of its own. */
  function Attach(states: States, s: nat, s': State): States
    requires s < |states|
  {
    states[s := s'] + [NEW_STATE]
  }

  lemma {:induction false} AttachLinkLeads(w: World, states: States, links: Links, s: nat, s': State, c: NCond, t: nat)
    requires |links| == |states| && s < |states| && GoodCond(w, c) && Next(states[s], c).None?
    requires Leads(states[s], s', c, |states|)
    requires 0 < t <= |states| && (t < |states| ==> LinkLeads(w, states, links, t))
    ensures LinkLeads(w, Attach(states, s, s'), links + [Link(s, c)], t)
  {
    if t < |states| {
      var p, d := links[t].parent, links[t].cond;
      assert (links + [Link(s, c)])[t] == links[t];
      assert p != s ==> Attach(states, s, s')[p] == states[p];
      assert p == s ==> d != c;
    }
  }

  lemma {:induction false} AttachLedByLink(w: World, states: States, links: Links, s: nat, s': State, c: NCond, q: nat,
                                           d: NCond)
    requires |links| == |states| && s < |states| && Leads(states[s], s', c, |states|)
    requires q <= |states| && WellFormed(d) && (q < |states| ==> LedByLink(states, links, q, d))
    ensures LedByLink(Attach(states, s, s'), links + [Link(s, c)], q, d)
  {
    assert q < |states| && q != s ==> Attach(states, s, s')[q] == states[q];
  }

  lemma {:induction false} AttachLinked(w: World, states: States, links: Links, s: nat, s': State, c: NCond)
    requires Linked(w, states, links) && s < |states| && GoodCond(w, c) && Next(states[s], c).None?
    requires Leads(states[s], s', c, |states|)
    ensures Linked(w, Attach(states, s, s'), links + [Link(s, c)])
  {
    var n, more, ls := |states|, Attach(states, s, s'), links + [Link(s, c)];
    forall t | 0 < t <= n ensures LinkLeads(w, more, ls, t) {
      AttachLinkLeads(w, states, links, s, s', c, t);
    }
    forall q, d | 0 <= q <= n && WellFormed(d) ensures LedByLink(more, ls, q, d) {
      AttachLedByLink(w, states, links, s, s', c, q, d);
    }
  }

  /** s' is the state s with the new condition c, which leads to state t. */
  ghost predicate NewCond(w: World, s: State, edgeSeq: nat, paths: set<Bytes>, s': State, c: NCond, t: nat) {
    && GoodCond(w, c) && Next(s, c).None? && Leads(s, s', c, t)
    && GoodState(w, s', edgeSeq + 1) && PathsIn(s', paths)
    && s'.rules == s.rules && s'.minKey == s.minKey
  }

  lemma {:induction false} AttachShape(w: World, states: States, links: Links, edgeSeq: nat, known: Paths.Index, s: nat,
                                       s': State, c: NCond)
    requires Shape(w, states, links, edgeSeq) && PathsKnown(states, known) && s < |states|
    requires NewCond(w, states[s], edgeSeq, known.paths, s', c, |states|)
    ensures Shape(w, Attach(states, s, s'), links + [Link(s, c)], edgeSeq + 1)
    ensures PathsKnown(Attach(states, s, s'), known)
  {
    AttachLinked(w, states, links, s, s', c);
    StatePathsKnown(states, known, s, s');
    AttachGoodStates(w, states, edgeSeq, s, s');
  }

  lemma {:induction false} AttachExtended(states: States, links: Links, s: nat, s': State, c: NCond)
    requires |links| == |states| && s < |states| && s'.rules == states[s].rules && s'.minKey == states[s].minKey
    ensures Extended(states, links, Attach(states, s, s'), links + [Link(s, c)])
    ensures SameKeys(states, Attach(states, s, s'))
  {
  }

  lemma {:induction false} AttachGoodStates(w: World, states: States, edgeSeq: nat, s: nat, s': State)
    requires s < |states| && GoodState(w, s', edgeSeq + 1)
    requires forall q :: 0 <= q < |states| ==> GoodState(w, states[q], edgeSeq)
    ensures forall q :: 0 <= q <= |states| ==> GoodState(w, Attach(states, s, s')[q], edgeSeq + 1)
  {
    forall q | 0 <= q <= |states| ensures GoodState(w, Attach(states, s, s')[q], edgeSeq + 1) {
      AttachGoodState(w, states, edgeSeq, s, s', q);
    }
  }

  lemma {:induction false} AttachGoodState(w: World, states: States, edgeSeq: nat, s: nat, s': State, q: nat)
    requires s < |states| && q <= |states| && GoodState(w, s', edgeSeq + 1)
    requires q < |states| ==> GoodState(w, states[q], edgeSeq)
    ensures GoodState(w, Attach(states, s, s')[q], edgeSeq + 1)
  {
    if q < |states| && q != s {
      GoodStateLater(w, states[q], edgeSeq);
    }
  }

  lemma {:induction false} GoodStateLater(w: World, s: State, edgeSeq: nat)
    requires GoodState(w, s, edgeSeq)
    ensures GoodState(w, s, edgeSeq + 1)
  {
  }

  lemma {:induction false} GoodNewGroup(w: World, path: Bytes, edgeSeq: nat)
    requires path != []
    ensures GoodGroup(w, NewGroup(path), edgeSeq)
  {
    NewGroupValid(w, path);
  }

  lemma {:induction false} GoodStateNewGroup(w: World, s: State, edgeSeq: nat, g: Group)
    requires GoodState(w, s, edgeSeq) && GoodGroup(w, g, edgeSeq) && FindGroup(s.groups, g.path).None?
    ensures GoodState(w, s.(groups := s.groups + [g]), edgeSeq)
  {
  }

  lemma {:induction false} GoodStateNewEdge(w: World, s: State, edgeSeq: nat, i: nat, g: Group)
    requires GoodState(w, s, edgeSeq) && i < |s.groups| && g.path == s.groups[i].path
    requires Groups.Valid(w, g) && FreshId(g, edgeSeq + 2)
    ensures GoodState(w, s.(groups := s.groups[i := g]), edgeSeq + 1)
  {
    GoodStateLater(w, s, edgeSeq);
  }

  lemma {:induction false} GoodStateNewAbsent(w: World, s: State, edgeSeq: nat, a: AbsentEdge)
    requires GoodState(w, s, edgeSeq) && a.path != [] && FindAbsent(s.absent, a.path).None?
    ensures GoodState(w, s.(absent := s.absent + [a]), edgeSeq + 1)
  {
    GoodStateLater(w, s, edgeSeq);
  }

  lemma {:induction false} ExtendedTrans(a: States, al: Links, b: States, bl: Links, c: States, cl: Links)
    requires Extended(a, al, b, bl) && Extended(b, bl, c, cl)
    ensures Extended(a, al, c, cl)
  {
    assert al == bl[..|al|] && bl == cl[..|bl|];
    assert cl[..|al|] == bl[..|al|];
  }

  /** Rules stay where they are. */
  lemma {:induction false} ExtendedRules(a: States, al: Links, b: States, bl: Links, conds: seq<NCond>, n: nat)
    requires Extended(a, al, b, bl)
    ensures HasRule(b, bl, conds, n) <==> HasRule(a, al, conds, n)
  {
    forall t | 0 <= t < |a| ensures Trail(bl, t) == Trail(al, t) {
      TrailStable(al, bl, t);
    }
    if HasRule(a, al, conds, n) {
      var t :| 0 <= t < |a| && Trail(al, t) == conds && n in a[t].rules;
      assert Trail(bl, t) == conds && n in b[t].rules;
    }
    if HasRule(b, bl, conds, n) {
      var t :| 0 <= t < |b| && Trail(bl, t) == conds && n in b[t].rules;
      assert t < |a|;
    }
  }

  // ------------------------------------------------------------- order keys

  function Lower(s: State, key: nat): State {
    if s.minKey.None? || key < s.minKey.value then s.(minKey := Some(key)) else s
  }

  lemma {:induction false} LowerShape(w: World, states: States, links: Links, edgeSeq: nat, t: nat, key: nat)
    requires Shape(w, states, links, edgeSeq) && t < |states|
    ensures Shape(w, states[t := Lower(states[t], key)], links, edgeSeq)
    ensures Extended(states, links, states[t := Lower(states[t], key)], links)
  {
    var states' := states[t := Lower(states[t], key)];
    assert forall s, c :: 0 <= s < |states| ==> Next(states'[s], c) == Next(states[s], c);
    forall s | 0 < s < |states| ensures LinkLeads(w, states', links, s) {
      assert LinkLeads(w, states, links, s);
    }
    forall s, c | 0 <= s < |states| && WellFormed(c) ensures LedByLink(states', links, s, c) {
      assert LedByLink(states, links, s, c);
    }
    assert links[..|links|] == links;
  }

  /** The key of t is at most key, and so are the keys of all states before it. */
  ghost predicate Lowered(states: States, t: nat, key: nat)
    requires t < |states|
  {
    states[t].minKey.Some? && states[t].minKey.value <= key
  }

  /** Lowering the key of t is safe once the key of the state before it was lowered. */
  lemma {:induction false} LowerKeysBound(states: States, links: Links, meta: RuleMeta, t: nat, key: nat)
    requires KeysBound(states, links, meta) && t < |states|
    requires t > 0 && links[t].parent < t ==> Lowered(states, links[t].parent, key)
    ensures KeysBound(states[t := Lower(states[t], key)], links, meta)
    ensures Lowered(states[t := Lower(states[t], key)], t, key)
  {
    var states' := states[t := Lower(states[t], key)];
    forall q | 0 <= q < |states| ensures KeyOfRules(states'[q], meta) {
      assert KeyOfRules(states[q], meta);
    }
    forall q | 0 < q < |states| ensures KeyOfParent(states', links, q) {
      assert KeyOfParent(states, links, q);
    }
  }

  lemma {:induction false} NewStatesKeysBound(states: States, links: Links, meta: RuleMeta, states': States,
                                              links': Links)
    requires KeysBound(states, links, meta) && Extended(states, links, states', links') && SameKeys(states, states')
    ensures KeysBound(states', links', meta)
  {
    forall t | 0 <= t < |states'| ensures KeyOfRules(states'[t], meta) {
      assert t < |states| ==> KeyOfRules(states[t], meta);
    }
    forall t | 0 < t < |states'| ensures KeyOfParent(states', links', t) {
      if t < |states| {
        assert links'[t] == links'[..|links|][t] == links[t] && KeyOfParent(states, links, t);
      }
    }
  }

  // ---------------------------------------------------------------- methods

  class Trie {
    var states: States
    var edgeSeq: nat
    var known: Paths.Index
    ghost var links: Links

    ghost predicate Valid(w: World)
      reads this
    {
      Shape(w, states, links, edgeSeq) && PathsKnown(states, known)
    }

    constructor (ghost w: World)
      ensures Valid(w) && states == [NEW_STATE] && links == [Link(0, NCond([], Absent))]
    {
      states, edgeSeq, known := [NEW_STATE], 0, Paths.EMPTY;
      links := [Link(0, NCond([], Absent))];
    }

    /** followAbsent: the state {"exists": false} on the path of c leads to from s, added if necessary. */
    method FollowAbsent(w: World, s: nat, c: NCond) returns (t: nat)
      requires Valid(w) && s < |states| && GoodCond(w, c) && c.expr.Absent?
      modifies this
      ensures Valid(w) && Extended(old(states), old(links), states, links) && SameKeys(old(states), states)
      ensures s < |states| && Next(states[s], c) == Some(t)
    {
      var i := FindAbsent(states[s].absent, c.path);
      if i.Some? {
        ExtendedSelf(states, links);
        return states[s].absent[i.value].next;
      }
      KnowPath(w, c.path);
      var s' := states[s].(absent := states[s].absent + [AbsentEdge(c.path, |states|)]);
      NewAbsentCond(w, states, links, edgeSeq, known, s, c);
      t := AttachState(w, s, s', c);
    }

    /** addPath: records a path. */
    method KnowPath(w: World, path: Bytes)
      requires Valid(w)
      modifies this`known
      ensures Valid(w) && path in known.paths
    {
      var more := Paths.AddPath(known, path);
      MorePathsKnown(states, known, more);
      known := more;
    }

    /** The group of s on path, added if necessary. */
    method GroupFor(w: World, s: nat, path: Bytes) returns (i: nat)
      requires Valid(w) && s < |states| && path != []
      modifies this
      ensures Valid(w) && Extended(old(states), old(links), states, links) && SameKeys(old(states), states)
      ensures s < |states| && FindGroup(states[s].groups, path) == Some(i)
    {
      var found := FindGroup(states[s].groups, path);
      if found.Some? {
        ExtendedSelf(states, links);
        return found.value;
      }
      i := |states[s].groups|;
      KnowPath(w, path);
      NewGroupShape(w, states, links, edgeSeq, known, s, path);
      states := states[s := states[s].(groups := states[s].groups + [NewGroup(path)])];
    }

    /** follow: the state the condition c leads to from s, added if necessary. */
    method Follow(w: World, s: nat, c: NCond) returns (t: nat)
      requires w.Lawful() && Valid(w) && s < |states| && GoodCond(w, c)
      modifies this
      ensures Valid(w) && Extended(old(states), old(links), states, links) && SameKeys(old(states), states)
      ensures s < |states| && Next(states[s], c) == Some(t)
    {
      if c.expr.Absent? {
        t := FollowAbsent(w, s, c);
        return;
      }
      var i := GroupFor(w, s, c.path);
      if Key(c.expr) in states[s].groups[i].edges {
        return states[s].groups[i].edges[Key(c.expr)].next;
      }
      ghost var mid, midLinks := states, links;
      assert GoodState(w, states[s], edgeSeq) && PathsIn(states[s], known.paths);
      var s' := StateWithEdge(w, states[s], edgeSeq, known.paths, i, c, |states|);
      t := AttachState(w, s, s', c);
      ExtendedTrans(old(states), old(links), mid, midLinks, states, links);
    }

    /** The condition c of state s, which becomes s', leads to a new state t. */
    method AttachState(w: World, s: nat, s': State, c: NCond) returns (t: nat)
      requires Valid(w) && s < |states| && NewCond(w, states[s], edgeSeq, known.paths, s', c, |states|)
      modifies this
      ensures Valid(w) && Extended(old(states), old(links), states, links) && SameKeys(old(states), states)
      ensures s < |states| && Next(states[s], c) == Some(t)
    {
      t := |states|;
      AttachShape(w, states, links, edgeSeq, known, s, s', c);
      AttachExtended(states, links, s, s', c);
      states, links, edgeSeq := Attach(states, s, s'), links + [Link(s, c)], edgeSeq + 1;
    }

    /** State t and those above it get a key of at most key. */
    method LowerAt(w: World, t: nat, key: nat, ghost meta: RuleMeta)
      requires Valid(w) && KeysBound(states, links, meta) && t < |states|
      requires t > 0 && links[t].parent < t ==> Lowered(states, links[t].parent, key)
      modifies this`states
      ensures Valid(w) && Extended(old(states), links, states, links) && KeysBound(states, links, meta)
      ensures |states| == |old(states)| && Lowered(states, t, key)
    {
      LowerStep(w, states, links, edgeSeq, meta, t, key);
      SamePathsKnown(states, known, t, Lower(states[t], key));
      states := states[t := Lower(states[t], key)];
    }

    /** insert: the state the conditions conds lead to, where the caller adds a rule with the order key key. */
    method Insert(w: World, conds: seq<NCond>, key: nat, ghost meta: RuleMeta) returns (t: nat)
      requires w.Lawful() && Valid(w) && KeysBound(states, links, meta)
      requires forall c :: c in conds ==> GoodCond(w, c)
      modifies this
      ensures Valid(w) && Extended(old(states), old(links), states, links) && KeysBound(states, links, meta)
      ensures t < |states| && Trail(links, t) == conds && Lowered(states, t, key)
    {
      t := 0;
      LowerAt(w, t, key, meta);
      for i := 0 to |conds|
        invariant Valid(w) && Extended(old(states), old(links), states, links) && KeysBound(states, links, meta)
        invariant t < |states| && Trail(links, t) == conds[..i] && Lowered(states, t, key)
      {
        TakeNext(conds, i);
        ghost var before, beforeLinks := states, links;
        var s := t;
        t := Follow(w, s, conds[i]);
        AfterFollow(w, before, beforeLinks, states, links, edgeSeq, meta, s, conds[i], t, key);
        ghost var mid := states;
        LowerAt(w, t, key, meta);
        ExtendedTrans(before, beforeLinks, mid, links, states, links);
        ExtendedTrans(old(states), old(links), before, beforeLinks, states, links);
      }
      TakeAll(conds);
    }

    /** addRule: rule num ends in t. */
    method AddRule(w: World, t: nat, num: nat, ghost meta: RuleMeta)
      requires Valid(w) && KeysBound(states, links, meta) && t < |states| && Lowered(states, t, OrderIn(meta, num))
      modifies this
      ensures Valid(w) && KeysBound(states, links, meta) && links == old(links)
      ensures |states| == |old(states)|
      ensures forall s :: 0 <= s < |states| ==>
        states[s].rules == if s == t then old(states)[s].rules + [num] else old(states)[s].rules
      ensures forall s :: 0 <= s < |states| ==> states[s].minKey == old(states)[s].minKey
    {
      AddRuleShape(w, states, links, edgeSeq, meta, t, num);
      SamePathsKnown(states, known, t, states[t].(rules := states[t].rules + [num]));
      states := states[t := states[t].(rules := states[t].rules + [num])];
    }
  }

  lemma {:induction false} ExtendedSelf(states: States, links: Links)
    requires |links| == |states|
    ensures Extended(states, links, states, links) && SameKeys(states, states)
  {
    assert links[..|links|] == links;
  }

  lemma {:induction false} NewGroupShape(w: World, states: States, links: Links, edgeSeq: nat, known: Paths.Index,
                                         s: nat, path: Bytes)
    requires PathsKnown(states, known) && path in known.paths
    requires Shape(w, states, links, edgeSeq) && s < |states| && path != [] && FindGroup(states[s].groups, path).None?
    ensures var states' := states[s := states[s].(groups := states[s].groups + [NewGroup(path)])];
            && Shape(w, states', links, edgeSeq)
            && Extended(states, links, states', links) && SameKeys(states, states')
            && FindGroup(states'[s].groups, path) == Some(|states[s].groups|)
            && PathsKnown(states', known)
  {
    assert PathsIn(states[s], known.paths);
    StatePathsKnown(states, known, s, states[s].(groups := states[s].groups + [NewGroup(path)]));
    var states' := states[s := states[s].(groups := states[s].groups + [NewGroup(path)])];
    GoodNewGroup(w, path, edgeSeq);
    GoodStateNewGroup(w, states[s], edgeSeq, NewGroup(path));
    FindGroupAppend(states[s].groups, NewGroup(path), path);
    forall q, d | 0 <= q < |states| ensures Next(states'[q], d) == Next(states[q], d) {
      if q == s {
        EmptyGroupLeadsNowhere(states[s], path, d);
      }
    }
    SameNexts(w, states, states', links);
    ExtendedSelf(states, links);
  }

  lemma {:induction false} SameNexts(w: World, states: States, states': States, links: Links)
    requires Linked(w, states, links) && |states'| == |states|
    requires forall q, d :: 0 <= q < |states| ==> Next(states'[q], d) == Next(states[q], d)
    ensures Linked(w, states', links)
  {
    forall t | 0 < t < |states| ensures LinkLeads(w, states', links, t) {
      assert LinkLeads(w, states, links, t);
    }
    forall s, c | 0 <= s < |states| && WellFormed(c) ensures LedByLink(states', links, s, c) {
      assert LedByLink(states, links, s, c);
    }
  }

  lemma {:induction false} NewAbsentCond(w: World, states: States, links: Links, edgeSeq: nat, known: Paths.Index,
                                         s: nat, c: NCond)
    requires Shape(w, states, links, edgeSeq) && PathsKnown(states, known) && s < |states| && GoodCond(w, c)
    requires c.expr.Absent? && FindAbsent(states[s].absent, c.path).None? && c.path in known.paths
    ensures NewCond(w, states[s], edgeSeq, known.paths,
                    states[s].(absent := states[s].absent + [AbsentEdge(c.path, |states|)]), c, |states|)
  {
    assert GoodState(w, states[s], edgeSeq) && PathsIn(states[s], known.paths);
    AbsentLeadsThere(states[s], c, |states|);
    GoodStateNewAbsent(w, states[s], edgeSeq, AbsentEdge(c.path, |states|));
  }

  /** The group g' is g with the new condition c, which leads to t. */
  ghost predicate NewCondition(w: World, g: Group, g': Group, c: NCond, id: nat, t: nat) {
    && Groups.Valid(w, g') && g'.path == g.path && Key(c.expr) !in g.edges
    && Key(c.expr) in g'.edges && g'.edges[Key(c.expr)].next == t && g'.edges[Key(c.expr)].id == id
    && g'.edges == g.edges[Key(c.expr) := g'.edges[Key(c.expr)]]
  }

  lemma {:induction false} NewEdgeLeads(w: World, s: State, i: nat, c: NCond, g: Group, id: nat, t: nat)
    requires WellFormed(c) && !c.expr.Absent? && FindGroup(s.groups, c.path) == Some(i)
    requires NewCondition(w, s.groups[i], g, c, id, t)
    ensures Leads(s, s.(groups := s.groups[i := g]), c, t) && Next(s, c).None?
  {
    GroupLeadsThere(s, s.(groups := s.groups[i := g]), i, c, t);
  }

  lemma {:induction false} NewEdgeGoodState(w: World, s: State, edgeSeq: nat, i: nat, c: NCond, g: Group, t: nat)
    requires GoodState(w, s, edgeSeq) && i < |s.groups| && NewCondition(w, s.groups[i], g, c, edgeSeq + 1, t)
    ensures GoodState(w, s.(groups := s.groups[i := g]), edgeSeq + 1)
  {
    assert GoodGroup(w, s.groups[i], edgeSeq);
    assert FreshId(g, edgeSeq + 2);
    GoodStateNewEdge(w, s, edgeSeq, i, g);
  }

  lemma {:induction false} SamePathsIn(s: State, i: nat, g: Group, paths: set<Bytes>)
    requires PathsIn(s, paths) && i < |s.groups| && g.path == s.groups[i].path
    ensures PathsIn(s.(groups := s.groups[i := g]), paths)
  {
  }

  lemma {:induction false} NewEdgeCond(w: World, s: State, edgeSeq: nat, paths: set<Bytes>, i: nat, c: NCond, g: Group,
                                       t: nat)
    requires GoodState(w, s, edgeSeq) && PathsIn(s, paths) && GoodCond(w, c) && !c.expr.Absent?
    requires FindGroup(s.groups, c.path) == Some(i) && NewCondition(w, s.groups[i], g, c, edgeSeq + 1, t)
    ensures NewCond(w, s, edgeSeq, paths, s.(groups := s.groups[i := g]), c, t)
  {
    NewEdgeLeads(w, s, i, c, g, edgeSeq + 1, t);
    NewEdgeGoodState(w, s, edgeSeq, i, c, g, t);
    SamePathsIn(s, i, g, paths);
  }

  lemma {:induction false} GoodGroupOf(w: World, s: State, edgeSeq: nat, i: nat)
    requires GoodState(w, s, edgeSeq) && i < |s.groups|
    ensures Groups.Valid(w, s.groups[i]) && FreshId(s.groups[i], edgeSeq + 1)
  {
    assert GoodGroup(w, s.groups[i], edgeSeq);
  }

  /** The second half of follow: compiles the condition c of the group i, which leads to state t. */
  method StateWithEdge(w: World, s: State, edgeSeq: nat, ghost paths: set<Bytes>, i: nat, c: NCond, t: nat)
    returns (s': State)
    requires w.Lawful() && GoodState(w, s, edgeSeq) && PathsIn(s, paths) && GoodCond(w, c) && !c.expr.Absent?
    requires FindGroup(s.groups, c.path) == Some(i) && Key(c.expr) !in s.groups[i].edges
    ensures NewCond(w, s, edgeSeq, paths, s', c, t)
  {
    GoodGroupOf(w, s, edgeSeq, i);
    var g := AddCondition(w, s.groups[i], c.expr, edgeSeq + 1, t);
    NewEdgeCond(w, s, edgeSeq, paths, i, c, g, t);
    s' := s.(groups := s.groups[i := g]);
  }

  lemma {:induction false} LowerStep(w: World, states: States, links: Links, edgeSeq: nat, meta: RuleMeta, t: nat,
                                     key: nat)
    requires Shape(w, states, links, edgeSeq) && KeysBound(states, links, meta) && t < |states|
    requires t > 0 && links[t].parent < t ==> Lowered(states, links[t].parent, key)
    ensures var states' := states[t := Lower(states[t], key)];
            && Shape(w, states', links, edgeSeq) && KeysBound(states', links, meta)
            && Extended(states, links, states', links) && Lowered(states', t, key)
  {
    LowerShape(w, states, links, edgeSeq, t, key);
    LowerKeysBound(states, links, meta, t, key);
  }

  /** What holds for the state that was followed to from s. */
  lemma {:induction false} AfterFollow(w: World, before: States, beforeLinks: Links, states: States, links: Links,
                                       edgeSeq: nat, meta: RuleMeta, s: nat, c: NCond, t: nat, key: nat)
    requires Shape(w, states, links, edgeSeq) && KeysBound(before, beforeLinks, meta) && GoodCond(w, c)
    requires Extended(before, beforeLinks, states, links) && SameKeys(before, states)
    requires s < |before| && Next(states[s], c) == Some(t) && Lowered(before, s, key)
    ensures KeysBound(states, links, meta)
    ensures t < |states| && Trail(links, t) == Trail(beforeLinks, s) + [c]
    ensures t > 0 && links[t].parent < t ==> Lowered(states, links[t].parent, key)
  {
    NewStatesKeysBound(before, beforeLinks, meta, states, links);
    assert LedByLink(states, links, s, c);
    TrailUnfold(w, states, links, t);
    TrailStable(beforeLinks, links, s);
  }

  lemma {:induction false} AddRuleShape(w: World, states: States, links: Links, edgeSeq: nat, meta: RuleMeta, t: nat,
                                        num: nat)
    requires Shape(w, states, links, edgeSeq) && KeysBound(states, links, meta) && t < |states|
    requires Lowered(states, t, OrderIn(meta, num))
    ensures var states' := states[t := states[t].(rules := states[t].rules + [num])];
            Shape(w, states', links, edgeSeq) && KeysBound(states', links, meta)
  {
    var states' := states[t := states[t].(rules := states[t].rules + [num])];
    SameNexts(w, states, states', links);
    forall s | 0 <= s < |states| ensures GoodState(w, states'[s], edgeSeq) && KeyOfRules(states'[s], meta) {
      assert GoodState(w, states[s], edgeSeq) && KeyOfRules(states[s], meta);
    }
    forall s | 0 < s < |states| ensures KeyOfParent(states', links, s) {
      assert KeyOfParent(states, links, s);
    }
  }
}
