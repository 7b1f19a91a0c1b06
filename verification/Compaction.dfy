/** Rebuilding a trie from the keys of its conditions, with other rule numbers (copyRules in engine.go). */
module Compaction {
  import opened ByteStrings
  import opened Sorting
  import opened Expressions
  import opened Semantics
  import opened Groups
  import opened Tries
  import opened Visibility
  import opened Walks
  import opened NormalizeGood
  import opened Insertions

  // ------------------------------------------------------------- subtrees

  ghost predicate Below(links: Links, s: nat, t: nat)
    requires t < |links|
    decreases t
  {
    t == s || (s < t && links[t].parent < t && Below(links, s, links[t].parent))
  }

  ghost function Subtree(links: Links, s: nat): set<nat> {
    set t: nat | t < |links| && Below(links, s, t)
  }

  ghost predicate IsChild(links: Links, s: nat, c: nat) {
    s < c < |links| && links[c].parent == s
  }

  ghost predicate InSpread(links: Links, s: nat, kids: set<nat>, t: nat)
    requires t < |links|
  {
    t == s || exists c :: c in kids && Below(links, c, t)
  }

  /** The state s and the subtrees of some of its children. */
  ghost function Spread(links: Links, s: nat, kids: set<nat>): set<nat> {
    set t: nat | t < |links| && InSpread(links, s, kids, t)
  }

  lemma {:induction false} BelowTrans(links: Links, s: nat, c: nat, t: nat)
    requires t < |links| && IsChild(links, s, c) && Below(links, c, t)
    ensures Below(links, s, t)
    decreases t
  {
    if t != c {
      BelowTrans(links, s, c, links[t].parent);
    }
  }

  lemma {:induction false} BelowThroughChild(links: Links, s: nat, t: nat) returns (c: nat)
    requires t < |links| && t != s && Below(links, s, t)
    ensures IsChild(links, s, c) && Below(links, c, t)
    decreases t
  {
    if links[t].parent == s {
      c := t;
    } else {
      c := BelowThroughChild(links, s, links[t].parent);
    }
  }

  lemma {:induction false} ChildrenDisjoint(links: Links, s: nat, c: nat, d: nat, t: nat)
    requires t < |links| && IsChild(links, s, c) && IsChild(links, s, d) && Below(links, c, t) && Below(links, d, t)
    ensures c == d
    decreases t
  {
    if t != c && t != d {
      ChildrenDisjoint(links, s, c, d, links[t].parent);
    }
  }

  lemma {:induction false} SpreadMore(links: Links, s: nat, kids: set<nat>, c: nat)
    requires s < |links| && IsChild(links, s, c) && c !in kids
    requires forall d :: d in kids ==> IsChild(links, s, d)
    ensures Spread(links, s, kids + {c}) == Spread(links, s, kids) + Subtree(links, c)
    ensures Spread(links, s, kids) !! Subtree(links, c)
  {
    forall t | t in Spread(links, s, kids) ensures t !in Subtree(links, c) {
      if t in Subtree(links, c) && t != s {
        var d :| d in kids && Below(links, d, t);
        ChildrenDisjoint(links, s, c, d, t);
      }
    }
  }

  lemma {:induction false} SpreadAll(links: Links, s: nat, kids: set<nat>)
    requires s < |links| && forall c: nat :: c in kids <==> IsChild(links, s, c)
    ensures Spread(links, s, kids) == Subtree(links, s)
  {
    forall t | t in Subtree(links, s) ensures t in Spread(links, s, kids) {
      if t != s {
        var c := BelowThroughChild(links, s, t);
      }
    }
    forall t | t in Spread(links, s, kids) ensures t in Subtree(links, s) {
      if t != s {
        var c :| c in kids && Below(links, c, t);
        BelowTrans(links, s, c, t);
      }
    }
  }

  lemma {:induction false} ChildBelow(links: Links, s: nat, c: nat)
    requires IsChild(links, s, c)
    ensures Subtree(links, c) <= Subtree(links, s)
  {
    forall t | t in Subtree(links, c) ensures t in Subtree(links, s) {
      BelowTrans(links, s, c, t);
    }
  }

  // ----------------------------------------------------------- what is copied

  type Renumbering = map<nat, nat>

  ghost predicate Injective(renum: Renumbering) {
    forall a, b :: a in renum && b in renum && renum[a] == renum[b] ==> a == b
  }

  /** Rule n of state t was renumbered to m. */
  ghost predicate Renumbered(states: States, renum: Renumbering, t: nat, n: nat, m: nat) {
    t < |states| && n in states[t].rules && n in renum && renum[n] == m
  }

  /** Some rule of a copied state where the conditions conds lead was renumbered to m. */
  ghost predicate Comes(states: States, links: Links, done: set<nat>, renum: Renumbering, conds: seq<NCond>, m: nat) {
    exists t, n :: t in done && t < |links| && Trail(links, t) == conds && Renumbered(states, renum, t, n, m)
  }

  /** The copy holds exactly the rules of the states in done. */
  ghost predicate Copied(states: States, links: Links, done: set<nat>, renum: Renumbering, copy: States,
                         copyLinks: Links)
  {
    forall conds, m :: HasRule(copy, copyLinks, conds, m) <==> Comes(states, links, done, renum, conds, m)
  }

  /** The new numbers of the rules that remain. */
  function LiveNumbers(rules: seq<nat>, renum: Renumbering): seq<nat> {
    if rules == [] then []
    else
      var n := rules[|rules| - 1];
      LiveNumbers(rules[..|rules| - 1], renum) + if n in renum then [renum[n]] else []
  }

  lemma {:induction false} LiveMembers(rules: seq<nat>, renum: Renumbering, m: nat)
    ensures m in LiveNumbers(rules, renum) <==> exists n :: n in rules && n in renum && renum[n] == m
  {
    if rules != [] {
      LiveMembers(rules[..|rules| - 1], renum, m);
      assert rules == rules[..|rules| - 1] + [rules[|rules| - 1]];
    }
  }

  lemma {:induction false} LiveDistinct(rules: seq<nat>, renum: Renumbering)
    requires Distinct(rules) && Injective(renum)
    ensures Distinct(LiveNumbers(rules, renum))
  {
    if rules != [] {
      var init, n := rules[..|rules| - 1], rules[|rules| - 1];
      LiveDistinct(init, renum);
      if n in renum {
        LiveMembers(init, renum, renum[n]);
        assert forall a :: a in init && a in renum ==> renum[a] != renum[n];
      }
    }
  }

  function Min(s: seq<nat>): (m: nat)
    requires s != []
    ensures m in s && forall x :: x in s ==> m <= x
  {
    if |s| == 1 then s[0]
    else
      var r := Min(s[1..]);
      assert s == [s[0]] + s[1..];
      if s[0] < r then s[0] else r
  }

  /** No rule was copied to where the rules of s belong. */
  lemma {:induction false} NothingThere(w: World, states: States, links: Links, done: set<nat>, renum: Renumbering,
                                        copy: States, copyLinks: Links, s: nat, t: nat)
    requires Linked(w, states, links) && s < |states| && s !in done
    requires Copied(states, links, done, renum, copy, copyLinks)
    requires |copyLinks| == |copy| && t < |copy| && Trail(copyLinks, t) == Trail(links, s)
    ensures copy[t].rules == []
  {
    var conds := Trail(links, s);
    assert copy[t].rules != [] ==>
             copy[t].rules[0] in copy[t].rules && HasRule(copy, copyLinks, conds, copy[t].rules[0]);
    forall m ensures !Comes(states, links, done, renum, conds, m) {
      forall t' | t' in done && t' < |states| ensures Trail(links, t') != conds {
        if Trail(links, t') == conds {
          TrailInjective(w, states, links, s, t');
        }
      }
    }
  }

  lemma {:induction false} CopiedHere(states: States, links: Links, done: set<nat>, renum: Renumbering, s: nat,
                                      conds: seq<NCond>, m: nat)
    requires s < |states| == |links|
    ensures Comes(states, links, done + {s}, renum, conds, m) <==>
            Comes(states, links, done, renum, conds, m) ||
            (conds == Trail(links, s) && m in LiveNumbers(states[s].rules, renum))
  {
    LiveMembers(states[s].rules, renum, m);
    if conds == Trail(links, s) && m in LiveNumbers(states[s].rules, renum) {
      var n :| n in states[s].rules && n in renum && renum[n] == m;
      assert Renumbered(states, renum, s, n, m);
    }
  }

  /** The rules live were added at t. */
  ghost predicate RulesAddedAt(before: States, states: States, t: nat, live: seq<nat>) {
    && |before| == |states|
    && forall s :: 0 <= s < |states| ==> states[s].rules == if s == t then before[s].rules + live else before[s].rules
  }

  lemma {:induction false} RulesAddedHas(before: States, states: States, links: Links, t: nat, live: seq<nat>,
                                         conds: seq<NCond>, m: nat)
    requires RulesAddedAt(before, states, t, live) && |links| == |states| && t < |states|
    ensures HasRule(states, links, conds, m) <==>
              HasRule(before, links, conds, m) || (conds == Trail(links, t) && m in live)
  {
    if HasRule(before, links, conds, m) {
      var s :| 0 <= s < |before| && Trail(links, s) == conds && m in before[s].rules;
      assert m in states[s].rules;
    }
    if conds == Trail(links, t) && m in live {
      assert m in states[t].rules;
    }
  }

  /** A copy in progress. */
  ghost predicate Copying(w: World, states: States, links: Links, edgeSeq: nat, renum: Renumbering, done: set<nat>,
                          copy: States, copyLinks: Links)
  {
    && w.Lawful() && Shape(w, states, links, edgeSeq) && NoDuplicates(states) && Injective(renum)
    && Copied(states, links, done, renum, copy, copyLinks)
    && KeysBound(copy, copyLinks, map[]) && NoDuplicates(copy)
  }

  lemma {:induction false} HereCopied(w: World, states: States, links: Links, edgeSeq: nat, renum: Renumbering,
                                      done: set<nat>,
                                      a: States, al: Links, b: States, bl: Links, c: States, s: nat, t: nat)
    requires Copying(w, states, links, edgeSeq, renum, done, a, al) && s < |states| && s !in done
    requires Extended(a, al, b, bl) && t < |b| && Trail(bl, t) == Trail(links, s)
    requires RulesAddedAt(b, c, t, LiveNumbers(states[s].rules, renum)) && KeysBound(c, bl, map[])
    ensures Copying(w, states, links, edgeSeq, renum, done + {s}, c, bl)
  {
    var live := LiveNumbers(states[s].rules, renum);
    forall conds, m ensures HasRule(c, bl, conds, m) <==> Comes(states, links, done + {s}, renum, conds, m) {
      RulesAddedHas(b, c, bl, t, live, conds, m);
      ExtendedRules(a, al, b, bl, conds, m);
      CopiedHere(states, links, done, renum, s, conds, m);
    }
    ExtendedCopied(states, links, done, renum, a, al, b, bl);
    NothingThere(w, states, links, done, renum, b, bl, s, t);
    LiveDistinct(states[s].rules, renum);
    assert b[t].rules + live == live;
  }

  lemma {:induction false} ExtendedCopied(states: States, links: Links, done: set<nat>, renum: Renumbering, a: States,
                                          al: Links, b: States, bl: Links)
    requires Copied(states, links, done, renum, a, al) && Extended(a, al, b, bl)
    ensures Copied(states, links, done, renum, b, bl)
  {
    forall conds, m ensures HasRule(b, bl, conds, m) <==> Comes(states, links, done, renum, conds, m) {
      ExtendedRules(a, al, b, bl, conds, m);
    }
  }

  // ---------------------------------------------------------------- copyState

  /** Adds the rules live at t. The new numbers are the order keys. */
  method AddLive(copy: Trie, w: World, t: nat, live: seq<nat>)
    requires copy.Valid(w) && KeysBound(copy.states, copy.links, map[]) && t < |copy.states|
    requires forall m :: m in live ==> Lowered(copy.states, t, m)
    modifies copy
    ensures copy.Valid(w) && KeysBound(copy.states, copy.links, map[]) && copy.links == old(copy.links)
    ensures RulesAddedAt(old(copy.states), copy.states, t, live)
  {
    ghost var before := copy.states;
    for i := 0 to |live|
      invariant copy.Valid(w) && KeysBound(copy.states, copy.links, map[]) && copy.links == old(copy.links)
      invariant RulesAddedAt(before, copy.states, t, live[..i]) && copy.states[t].minKey == before[t].minKey
    {
      TakeNext(live, i);
      copy.AddRule(w, t, live[i], map[]);
    }
    TakeAll(live);
  }

  /** The rules ending in s. */
  method CopyHere(copy: Trie, w: World, states: States, s: nat, prefix: seq<NCond>, renum: Renumbering,
                  ghost links: Links, ghost edgeSeq: nat, ghost done: set<nat>)
    requires copy.Valid(w) && Copying(w, states, links, edgeSeq, renum, done, copy.states, copy.links)
    requires s < |states| && s !in done && prefix == Trail(links, s) && GoodConds(w, prefix)
    modifies copy
    ensures copy.Valid(w) && Copying(w, states, links, edgeSeq, renum, done + {s}, copy.states, copy.links)
  {
    var live := LiveNumbers(states[s].rules, renum);
    ghost var a, al := copy.states, copy.links;
    if live == [] {
      NoneCopied(w, states, links, edgeSeq, renum, done, a, al, s);
      return;
    }
    var t := copy.Insert(w, prefix, Min(live), map[]);
    ghost var b, bl := copy.states, copy.links;
    AddLive(copy, w, t, live);
    HereCopied(w, states, links, edgeSeq, renum, done, a, al, b, bl, copy.states, s, t);
  }

  lemma {:induction false} NoneCopied(w: World, states: States, links: Links, edgeSeq: nat, renum: Renumbering,
                                      done: set<nat>,
                                      a: States, al: Links, s: nat)
    requires Copying(w, states, links, edgeSeq, renum, done, a, al) && s < |states|
    requires LiveNumbers(states[s].rules, renum) == []
    ensures Copying(w, states, links, edgeSeq, renum, done + {s}, a, al)
  {
    forall conds, m ensures HasRule(a, al, conds, m) <==> Comes(states, links, done + {s}, renum, conds, m) {
      CopiedHere(states, links, done, renum, s, conds, m);
    }
  }

  /** The state s and the subtrees of its children kids were copied, on top of done. */
  ghost predicate CopyingKids(w: World, states: States, links: Links, edgeSeq: nat, renum: Renumbering, done: set<nat>,
                              s: nat, kids: set<nat>, copy: States, copyLinks: Links)
  {
    && s < |states| == |links| && done !! Subtree(links, s)
    && (forall c :: c in kids ==> IsChild(links, s, c))
    && Copying(w, states, links, edgeSeq, renum, done + Spread(links, s, kids), copy, copyLinks)
  }

  lemma {:induction false} NextChild(links: Links, s: nat, done: set<nat>, kids: set<nat>, c: nat)
    requires s < |links| && done !! Subtree(links, s) && IsChild(links, s, c) && c !in kids
    requires forall d :: d in kids ==> IsChild(links, s, d)
    ensures done + Spread(links, s, kids) !! Subtree(links, c)
    ensures done + Spread(links, s, kids) + Subtree(links, c) == done + Spread(links, s, kids + {c})
  {
    SpreadMore(links, s, kids, c);
    ChildBelow(links, s, c);
  }

  /** copyState: copies the rules of s and of all states below it. */
  method CopyState(copy: Trie, w: World, states: States, s: nat, prefix: seq<NCond>, renum: Renumbering,
                   ghost links: Links, ghost edgeSeq: nat, ghost done: set<nat>)
    requires copy.Valid(w) && Copying(w, states, links, edgeSeq, renum, done, copy.states, copy.links)
    requires s < |states| && done !! Subtree(links, s) && prefix == Trail(links, s) && GoodConds(w, prefix)
    modifies copy
    ensures copy.Valid(w)
    ensures Copying(w, states, links, edgeSeq, renum, done + Subtree(links, s), copy.states, copy.links)
    decreases |states| - s, 3
  {
    assert s in Subtree(links, s);
    CopyHere(copy, w, states, s, prefix, renum, links, edgeSeq, done);
    assert Spread(links, s, {}) == {s};
    ghost var kids := CopyAbsent(copy, w, states, s, prefix, renum, links, edgeSeq, done);
    kids := CopyGroups(copy, w, states, s, prefix, renum, links, edgeSeq, done, kids);
    forall c: nat ensures c in kids <==> IsChild(links, s, c) {
      AllChildrenCopied(w, states, links, edgeSeq, s, kids, c);
    }
    SpreadAll(links, s, kids);
  }

  /** Copies the subtree of one child, which the condition c leads to. */
  method CopyChild(copy: Trie, w: World, states: States, s: nat, prefix: seq<NCond>, c: NCond, t: nat,
                   renum: Renumbering,
                   ghost links: Links, ghost edgeSeq: nat, ghost done: set<nat>, ghost kids: set<nat>)
    requires copy.Valid(w) && CopyingKids(w, states, links, edgeSeq, renum, done, s, kids, copy.states, copy.links)
    requires prefix == Trail(links, s) && GoodConds(w, prefix)
    requires s < t < |links| && links[t] == Link(s, c) && t !in kids
    modifies copy
    ensures copy.Valid(w) && CopyingKids(w, states, links, edgeSeq, renum, done, s, kids + {t}, copy.states, copy.links)
    decreases |states| - s, 0
  {
    NextChild(links, s, done, kids, t);
    ChildPrefix(w, states, links, s, prefix, t);
    CopyState(copy, w, states, t, prefix + [c], renum, links, edgeSeq, done + Spread(links, s, kids));
  }

  lemma {:induction false} ChildPrefix(w: World, states: States, links: Links, s: nat, prefix: seq<NCond>, t: nat)
    requires Linked(w, states, links) && s < t < |links| && links[t].parent == s
    requires prefix == Trail(links, s) && GoodConds(w, prefix)
    ensures Trail(links, t) == prefix + [links[t].cond] && GoodConds(w, prefix + [links[t].cond])
  {
    TrailUnfold(w, states, links, t);
    assert LinkLeads(w, states, links, t);
  }

  /** The first n absent edges of s were copied, and no groups. */
  ghost predicate AbsentCopied(states: States, s: nat, n: nat, kids: set<nat>)
    requires s < |states|
  {
    forall c: nat :: c in kids <==> exists i: nat :: i < n && i < |states[s].absent| && states[s].absent[i].next == c
  }

  method CopyAbsent(copy: Trie, w: World, states: States, s: nat, prefix: seq<NCond>, renum: Renumbering,
                    ghost links: Links, ghost edgeSeq: nat, ghost done: set<nat>) returns (ghost kids: set<nat>)
    requires copy.Valid(w) && CopyingKids(w, states, links, edgeSeq, renum, done, s, {}, copy.states, copy.links)
    requires prefix == Trail(links, s) && GoodConds(w, prefix)
    modifies copy
    ensures copy.Valid(w) && CopyingKids(w, states, links, edgeSeq, renum, done, s, kids, copy.states, copy.links)
    ensures AbsentCopied(states, s, |states[s].absent|, kids)
    decreases |states| - s, 2
  {
    kids := {};
    for i := 0 to |states[s].absent|
      invariant copy.Valid(w) && CopyingKids(w, states, links, edgeSeq, renum, done, s, kids, copy.states, copy.links)
      invariant AbsentCopied(states, s, i, kids)
    {
      var a := states[s].absent[i];
      AbsentLink(w, states, links, edgeSeq, s, i);
      AbsentTargetsDiffer(w, states, links, edgeSeq, s, i);
      CopyChild(copy, w, states, s, prefix, NCond(a.path, Expressions.Expr.Absent), a.next, renum, links, edgeSeq, done,
                kids);
      kids := kids + {a.next};
    }
  }

  lemma {:induction false} AbsentTargetsDiffer(w: World, states: States, links: Links, edgeSeq: nat, s: nat, i: nat)
    requires Shape(w, states, links, edgeSeq) && s < |states| && i < |states[s].absent|
    ensures forall j :: 0 <= j < i ==> states[s].absent[j].next != states[s].absent[i].next
  {
    assert GoodState(w, states[s], edgeSeq);
    AbsentLink(w, states, links, edgeSeq, s, i);
    forall j | 0 <= j < i ensures states[s].absent[j].next != states[s].absent[i].next {
      AbsentLink(w, states, links, edgeSeq, s, j);
    }
  }

  /** The condition with key k of group i of s leads to c. */
  ghost predicate LeadsFrom(states: States, s: nat, i: nat, k: Bytes, c: nat)
    requires s < |states|
  {
    i < |states[s].groups| && k in states[s].groups[i].edges && states[s].groups[i].edges[k].next == c
  }

  ghost predicate FromGroups(states: States, s: nat, n: nat, c: nat)
    requires s < |states|
  {
    exists i: nat, k :: i < n && LeadsFrom(states, s, i, k, c)
  }

  ghost predicate FromAbsent(states: States, s: nat, c: nat)
    requires s < |states|
  {
    exists i: nat :: i < |states[s].absent| && states[s].absent[i].next == c
  }

  /** All absent edges of s and the first n groups were copied. */
  ghost predicate GroupsCopied(states: States, s: nat, n: nat, kids: set<nat>)
    requires s < |states|
  {
    forall c: nat :: c in kids <==> FromAbsent(states, s, c) || FromGroups(states, s, n, c)
  }

  /** And those conditions of group n whose keys are not in rest. */
  ghost predicate EdgesCopied(states: States, s: nat, n: nat, rest: set<Bytes>, kids: set<nat>)
    requires s < |states|
  {
    forall c: nat :: c in kids <==>
      FromAbsent(states, s, c) || FromGroups(states, s, n, c) || FromOthers(states, s, n, rest, c)
  }

  ghost predicate FromOthers(states: States, s: nat, n: nat, rest: set<Bytes>, c: nat)
    requires s < |states|
  {
    exists k :: k !in rest && LeadsFrom(states, s, n, k, c)
  }

  lemma {:induction false} AllChildrenCopied(w: World, states: States, links: Links, edgeSeq: nat, s: nat,
                                             kids: set<nat>, c: nat)
    requires Shape(w, states, links, edgeSeq) && s < |states| && GroupsCopied(states, s, |states[s].groups|, kids)
    requires forall d :: d in kids ==> IsChild(links, s, d)
    ensures c in kids <==> IsChild(links, s, c)
  {
    if IsChild(links, s, c) {
      assert LinkLeads(w, states, links, c);
      var d := links[c].cond;
      if d.expr.Absent? {
        var i := FindAbsent(states[s].absent, d.path);
        assert states[s].absent[i.value].next == c;
      } else {
        var i := FindGroup(states[s].groups, d.path);
        assert LeadsFrom(states, s, i.value, Key(d.expr), c);
      }
    }
  }

  method CopyGroups(copy: Trie, w: World, states: States, s: nat, prefix: seq<NCond>, renum: Renumbering,
                    ghost links: Links, ghost edgeSeq: nat, ghost done: set<nat>, ghost start: set<nat>)
    returns (ghost kids: set<nat>)
    requires copy.Valid(w) && CopyingKids(w, states, links, edgeSeq, renum, done, s, start, copy.states, copy.links)
    requires prefix == Trail(links, s) && GoodConds(w, prefix) && AbsentCopied(states, s, |states[s].absent|, start)
    modifies copy
    ensures copy.Valid(w) && CopyingKids(w, states, links, edgeSeq, renum, done, s, kids, copy.states, copy.links)
    ensures GroupsCopied(states, s, |states[s].groups|, kids)
    decreases |states| - s, 2
  {
    kids := start;
    for n := 0 to |states[s].groups|
      invariant copy.Valid(w) && CopyingKids(w, states, links, edgeSeq, renum, done, s, kids, copy.states, copy.links)
      invariant GroupsCopied(states, s, n, kids)
    {
      kids := CopyEdges(copy, w, states, s, n, prefix, renum, links, edgeSeq, done, kids);
      EdgesDone(states, s, n, kids);
    }
  }

  lemma {:induction false} EdgesDone(states: States, s: nat, n: nat, kids: set<nat>)
    requires s < |states| && n < |states[s].groups| && EdgesCopied(states, s, n, {}, kids)
    ensures GroupsCopied(states, s, n + 1, kids)
  {
    forall c: nat ensures FromGroups(states, s, n + 1, c) <==>
                          FromGroups(states, s, n, c) || FromOthers(states, s, n, {}, c)
    {
    }
  }

  lemma {:induction false} EdgesStart(states: States, s: nat, n: nat, kids: set<nat>)
    requires s < |states| && n < |states[s].groups| && GroupsCopied(states, s, n, kids)
    ensures EdgesCopied(states, s, n, states[s].groups[n].edges.Keys, kids)
  {
  }

  /** The conditions of group n of s, in any order. Each is recovered from its key. */
  method CopyEdges(copy: Trie, w: World, states: States, s: nat, n: nat, prefix: seq<NCond>, renum: Renumbering,
                   ghost links: Links, ghost edgeSeq: nat, ghost done: set<nat>, ghost start: set<nat>)
    returns (ghost kids: set<nat>)
    requires copy.Valid(w) && CopyingKids(w, states, links, edgeSeq, renum, done, s, start, copy.states, copy.links)
    requires prefix == Trail(links, s) && GoodConds(w, prefix) && n < |states[s].groups|
    requires GroupsCopied(states, s, n, start)
    modifies copy
    ensures copy.Valid(w) && CopyingKids(w, states, links, edgeSeq, renum, done, s, kids, copy.states, copy.links)
    ensures EdgesCopied(states, s, n, {}, kids)
    decreases |states| - s, 1
  {
    kids := start;
    var g := states[s].groups[n];
    var rest := g.edges.Keys;
    EdgesStart(states, s, n, kids);
    while rest != {}
      invariant rest <= g.edges.Keys
      invariant copy.Valid(w) && CopyingKids(w, states, links, edgeSeq, renum, done, s, kids, copy.states, copy.links)
      invariant EdgesCopied(states, s, n, rest, kids)
      decreases |rest|
    {
      var k :| k in rest;
      var t := g.edges[k].next;
      EdgeNotCopied(w, states, links, edgeSeq, s, n, rest, k, kids);
      CopyChild(copy, w, states, s, prefix, NCond(g.path, ExprOf(k)), t, renum, links, edgeSeq, done, kids);
      kids := kids + {t};
      rest := rest - {k};
    }
  }

  /** No other condition leads where the one with key k of group n does. */
  lemma {:induction false} EdgeNotCopied(w: World, states: States, links: Links, edgeSeq: nat, s: nat, n: nat,
                                         rest: set<Bytes>, k: Bytes, kids: set<nat>)
    requires Shape(w, states, links, edgeSeq) && s < |states| && n < |states[s].groups|
    requires k in states[s].groups[n].edges
    requires EdgesCopied(states, s, n, rest, kids) && k in rest
    ensures var t := states[s].groups[n].edges[k].next;
            t !in kids && s < t < |links| && links[t] == Link(s, NCond(states[s].groups[n].path, ExprOf(k)))
    ensures EdgesCopied(states, s, n, rest - {k}, kids + {states[s].groups[n].edges[k].next})
  {
    var t := states[s].groups[n].edges[k].next;
    EdgeLink(w, states, links, edgeSeq, s, n, k);
    EdgeCopied(states, s, n, rest, k, kids);
    NotFromAbsent(w, states, links, edgeSeq, s, n, k);
    forall i: nat, k' | LeadsFrom(states, s, i, k', t) ensures i == n && k' == k {
      OnlyEdge(w, states, links, edgeSeq, s, n, k, i, k');
    }
  }

  lemma {:induction false} NotFromAbsent(w: World, states: States, links: Links, edgeSeq: nat, s: nat, n: nat, k: Bytes)
    requires Shape(w, states, links, edgeSeq) && s < |states| && n < |states[s].groups|
    requires k in states[s].groups[n].edges
    ensures !FromAbsent(states, s, states[s].groups[n].edges[k].next)
  {
    EdgeLink(w, states, links, edgeSeq, s, n, k);
    forall i: nat | i < |states[s].absent| ensures states[s].absent[i].next != states[s].groups[n].edges[k].next {
      AbsentLink(w, states, links, edgeSeq, s, i);
    }
  }

  lemma {:induction false} OnlyEdge(w: World, states: States, links: Links, edgeSeq: nat, s: nat, n: nat, k: Bytes,
                                    i: nat, k': Bytes)
    requires Shape(w, states, links, edgeSeq) && s < |states| && n < |states[s].groups|
    requires k in states[s].groups[n].edges
    requires LeadsFrom(states, s, i, k', states[s].groups[n].edges[k].next)
    ensures i == n && k' == k
  {
    EdgeLink(w, states, links, edgeSeq, s, n, k);
    EdgeLink(w, states, links, edgeSeq, s, i, k');
    GroupPathsDiffer(w, states[s], edgeSeq, i, n);
  }

  lemma {:induction false} GroupPathsDiffer(w: World, s: State, edgeSeq: nat, i: nat, j: nat)
    requires GoodState(w, s, edgeSeq) && i < |s.groups| && j < |s.groups| && s.groups[i].path == s.groups[j].path
    ensures i == j
  {
  }

  lemma {:induction false} EdgeCopied(states: States, s: nat, n: nat, rest: set<Bytes>, k: Bytes, kids: set<nat>)
    requires s < |states| && n < |states[s].groups| && k in states[s].groups[n].edges
    requires EdgesCopied(states, s, n, rest, kids) && k in rest
    ensures EdgesCopied(states, s, n, rest - {k}, kids + {states[s].groups[n].edges[k].next})
  {
    var t := states[s].groups[n].edges[k].next;
    forall c: nat ensures FromOthers(states, s, n, rest - {k}, c) <==> FromOthers(states, s, n, rest, c) || c == t {
      assert LeadsFrom(states, s, n, k, t);
    }
  }

  /** copyRules: the copy holds the rules that remain, under their new numbers, and nothing else. */
  method CopyRules(w: World, states: States, renum: Renumbering, ghost links: Links, ghost edgeSeq: nat)
    returns (copy: Trie)
    requires w.Lawful() && Shape(w, states, links, edgeSeq) && NoDuplicates(states) && Injective(renum)
    ensures fresh(copy) && copy.Valid(w) && KeysBound(copy.states, copy.links, map[]) && NoDuplicates(copy.states)
    ensures forall conds, m :: HasRule(copy.states, copy.links, conds, m) <==>
      exists n :: HasRule(states, links, conds, n) && n in renum && renum[n] == m
  {
    copy := new Trie(w);
    NothingCopied(w, states, links, edgeSeq, renum);
    CopyState(copy, w, states, 0, [], renum, links, edgeSeq, {});
    forall conds, m ensures Comes(states, links, Subtree(links, 0), renum, conds, m) <==>
      exists n :: HasRule(states, links, conds, n) && n in renum && renum[n] == m
    {
      ComesAll(w, states, links, renum, conds, m);
    }
    assert {} + Subtree(links, 0) == Subtree(links, 0);
  }

  lemma {:induction false} NothingCopied(w: World, states: States, links: Links, edgeSeq: nat, renum: Renumbering)
    requires w.Lawful() && Shape(w, states, links, edgeSeq) && NoDuplicates(states) && Injective(renum)
    ensures Copying(w, states, links, edgeSeq, renum, {}, [NEW_STATE], [Link(0, NCond([], Expressions.Expr.Absent))])
  {
  }

  lemma {:induction false} AllBelowRoot(w: World, states: States, links: Links, t: nat)
    requires Linked(w, states, links) && t < |states|
    ensures Below(links, 0, t)
    decreases t
  {
    if t > 0 {
      TrailUnfold(w, states, links, t);
      AllBelowRoot(w, states, links, links[t].parent);
    }
  }

  lemma {:induction false} ComesAll(w: World, states: States, links: Links, renum: Renumbering, conds: seq<NCond>,
                                    m: nat)
    requires Linked(w, states, links)
    ensures Comes(states, links, Subtree(links, 0), renum, conds, m) <==>
            exists n :: HasRule(states, links, conds, n) && n in renum && renum[n] == m
  {
    if exists n :: HasRule(states, links, conds, n) && n in renum && renum[n] == m {
      var n :| HasRule(states, links, conds, n) && n in renum && renum[n] == m;
      var t :| 0 <= t < |states| && Trail(links, t) == conds && n in states[t].rules;
      AllBelowRoot(w, states, links, t);
      assert Renumbered(states, renum, t, n, m);
    }
  }
}
