/** From the rules a walk collected to what Match and MatchFirst return (results and MatchFirst in hypermatch.go). */
module Results {
  import opened ByteStrings
  import opened Sorting
  import opened Semantics
  import opened Tries
  import opened Visibility
  import opened Walks
  import opened Scratches
  import opened Normalize
  import opened NormalizeCorrect
  import opened RuleTables
  import Paths
  import Rules

  /** The values of the event at every path some condition refers to. */
  ghost predicate Reads(w: World, spans: seq<Span>, event: Rules.Event, paths: set<Bytes>) {
    GoodSpans(spans) && forall p :: p in paths ==> At(spans, p) == Rules.FoldedAt(w, event, p)
  }

  // ------------------------------------------------ which rules the walk finds

  /** The walk gets to exactly the states whose conditions all hold. */
  lemma {:induction false} LiveMeansHolds(w: World, states: States, links: Links, known: Paths.Index, spans: seq<Span>,
                                          event: Rules.Event, t: nat)
    requires Linked(w, states, links) && PathsKnown(states, known) && Reads(w, spans, event, known.paths)
    requires t < |states|
    ensures Live(w, links, spans, 0, t) <==> SetHolds(w, Trail(links, t), event)
    decreases t
  {
    if t > 0 {
      TrailUnfold(w, states, links, t);
      CondPathKnown(w, states, links, known, t);
      LiveMeansHolds(w, states, links, known, spans, event, links[t].parent);
      SnocHolds(w, Trail(links, links[t].parent), links[t].cond, event);
    }
  }

  lemma {:induction false} SnocHolds(w: World, conds: seq<NCond>, c: NCond, event: Rules.Event)
    ensures SetHolds(w, conds + [c], event) <==> SetHolds(w, conds, event) && CondHoldsOn(w, c, event)
  {
    assert c in conds + [c] && forall d :: d in conds ==> d in conds + [c];
  }

  /** The walk gets to a state where rule n ends. */
  ghost predicate Hit(w: World, states: States, links: Links, spans: seq<Span>, n: nat)
    requires |links| == |states|
  {
    exists t :: t in LiveSet(w, links, spans, 0) && n in states[t].rules
  }

  /** The walk finds the number of an entry exactly if one of its rules holds. */
  lemma {:induction false} HitMeansHolds<T>(w: World, states: States, links: Links, known: Paths.Index,
                                            spans: seq<Span>, event: Rules.Event,
                                            n: nat, e: Entry<T>)
    requires w.Lawful() && Linked(w, states, links) && PathsKnown(states, known) && Reads(w, spans, event, known.paths)
    requires RulesAt(w, states, links, n, e.rules)
    requires forall r :: r in e.rules ==> NormalizeRule(w, r).Some?
    ensures Hit(w, states, links, spans, n) <==> EntryHolds(w, e, event)
  {
    if Hit(w, states, links, spans, n) {
      var t :| t in LiveSet(w, links, spans, 0) && n in states[t].rules;
      LiveMeansHolds(w, states, links, known, spans, event, t);
      var conds := Trail(links, t);
      assert HasRule(states, links, conds, n);
      var r :| r in e.rules && NormalizeRule(w, r).Some? && conds in NormalizeRule(w, r).value;
      assert AnyHolds(w, NormalizeRule(w, r).value, event);
      RuleMeaning(w, r, event);
    }
    if EntryHolds(w, e, event) {
      var r :| r in e.rules && Rules.RuleHolds(w, r, event);
      RuleMeaning(w, r, event);
      var conds :| conds in NormalizeRule(w, r).value && SetHolds(w, conds, event);
      assert Compiled(w, e.rules, conds);
      HoldingRuleHit(w, states, links, known, spans, event, conds, n);
    }
  }

  lemma {:induction false} HoldingRuleHit(w: World, states: States, links: Links, known: Paths.Index, spans: seq<Span>,
                                          event: Rules.Event,
                                          conds: seq<NCond>, n: nat)
    requires Linked(w, states, links) && PathsKnown(states, known) && Reads(w, spans, event, known.paths)
    requires HasRule(states, links, conds, n) && SetHolds(w, conds, event)
    ensures Hit(w, states, links, spans, n)
  {
    var t :| 0 <= t < |states| && Trail(links, t) == conds && n in states[t].rules;
    LiveMeansHolds(w, states, links, known, spans, event, t);
    assert t in LiveSet(w, links, spans, 0);
  }

  lemma {:induction false} RulesOfMembers(states: States, vs: seq<nat>, n: nat)
    requires InStates(states, vs)
    ensures n in RulesOf(states, vs) <==> exists t :: t in vs && n in states[t].rules
  {
    if vs != [] {
      RulesOfMembers(states, vs[..|vs| - 1], n);
      assert vs == vs[..|vs| - 1] + [vs[|vs| - 1]];
    }
  }

  /** What the walk collects. */
  lemma {:induction false} CollectedHits(w: World, states: States, links: Links, spans: seq<Span>, out: seq<nat>,
                                         visited: seq<nat>)
    requires |links| == |states|
    requires Collected(states, Acc([], [], None), LiveSet(w, links, spans, 0), Acc(out, visited, None))
    ensures forall n :: n in out <==> Hit(w, states, links, spans, n)
    ensures Distinct(visited) && forall t :: t in visited <==> t in LiveSet(w, links, spans, 0)
  {
    var vs :| CollectedBy(states, Acc([], [], None), LiveSet(w, links, spans, 0), Acc(out, visited, None), vs);
    assert visited == vs && out == RulesOf(states, vs);
    forall n ensures n in out <==> Hit(w, states, links, spans, n) {
      RulesOfMembers(states, vs, n);
    }
  }

  // ----------------------------------------------------------- result order

  ghost predicate InOrder(meta: RuleMeta, s: seq<nat>) {
    forall i, j :: 0 <= i < j < |s| ==> OrderIn(meta, s[i]) < OrderIn(meta, s[j])
  }

  /** Numbers in order are determined by which ones they are. */
  lemma {:induction false} SameOrder(meta: RuleMeta, a: seq<nat>, b: seq<nat>)
    requires InOrder(meta, a) && InOrder(meta, b) && forall n: nat :: n in a <==> n in b
    ensures a == b
    decreases |a|
  {
    if a == [] {
      assert forall i :: 0 <= i < |b| ==> b[i] in b;
    } else {
      var x := a[|a| - 1];
      assert x in a && x in b;
      var y := b[|b| - 1];
      assert y in b && y in a;
      LastIsGreatest(meta, a, y);
      LastIsGreatest(meta, b, x);
      assert x == y;
      InitMembers(meta, a);
      InitMembers(meta, b);
      var ia, ib := a[..|a| - 1], b[..|b| - 1];
      forall n: nat ensures n in ia <==> n in ib {
        assert n in a <==> n in b;
      }
      SameOrder(meta, ia, ib);
      assert a == a[..|a| - 1] + [x] && b == b[..|b| - 1] + [y];
    }
  }

  lemma {:induction false} LastIsGreatest(meta: RuleMeta, a: seq<nat>, x: nat)
    requires InOrder(meta, a) && x in a
    ensures x == a[|a| - 1] || OrderIn(meta, x) < OrderIn(meta, a[|a| - 1])
  {
    var i :| 0 <= i < |a| && a[i] == x;
  }

  lemma {:induction false} InitMembers(meta: RuleMeta, a: seq<nat>)
    requires InOrder(meta, a) && a != []
    ensures InOrder(meta, a[..|a| - 1]) && forall n: nat :: n in a[..|a| - 1] <==> n in a && n != a[|a| - 1]
  {
    var init, x := a[..|a| - 1], a[|a| - 1];
    assert a == init + [x];
  }

  /** The numbers of the entries that hold, in order. */
  ghost function MatchNums<T>(w: World, nums: map<T, nat>, entries: seq<Entry<T>>, event: Rules.Event): (ns: seq<nat>)
    ensures |ns| == |Matches(w, entries, event)|
  {
    if entries == [] then []
    else
      var init, last := entries[..|entries| - 1], entries[|entries| - 1];
      MatchNums(w, nums, init, event) + if EntryHolds(w, last, event) then [NumOf(nums, last)] else []
  }

  ghost predicate HoldsAs<T>(w: World, nums: map<T, nat>, entries: seq<Entry<T>>, event: Rules.Event, n: nat) {
    exists i :: 0 <= i < |entries| && EntryHolds(w, entries[i], event) && NumOf(nums, entries[i]) == n
  }

  lemma {:induction false} MatchNumsMembers<T>(w: World, nums: map<T, nat>, entries: seq<Entry<T>>, event: Rules.Event,
                                               n: nat)
    ensures n in MatchNums(w, nums, entries, event) <==> HoldsAs(w, nums, entries, event, n)
  {
    if entries != [] {
      var init, last := entries[..|entries| - 1], entries[|entries| - 1];
      MatchNumsMembers(w, nums, init, event, n);
      assert entries == init + [last];
      if HoldsAs(w, nums, init, event, n) {
        var i :| 0 <= i < |init| && EntryHolds(w, init[i], event) && NumOf(nums, init[i]) == n;
        assert entries[i] == init[i];
      }
      if HoldsAs(w, nums, entries, event, n) {
        var i :| 0 <= i < |entries| && EntryHolds(w, entries[i], event) && NumOf(nums, entries[i]) == n;
        assert i < |init| ==> init[i] == entries[i];
      }
    }
  }

  lemma {:induction false} MatchNumsInOrder<T(!new)>(w: World, meta: RuleMeta, nums: map<T, nat>,
                                                     entries: seq<Entry<T>>, event: Rules.Event)
    requires forall i, j :: 0 <= i < j < |entries| ==> OrderBefore(meta, nums, entries[i], entries[j])
    ensures InOrder(meta, MatchNums(w, nums, entries, event))
  {
    if entries != [] {
      var init, last := entries[..|entries| - 1], entries[|entries| - 1];
      forall i, j | 0 <= i < j < |init| ensures OrderBefore(meta, nums, init[i], init[j]) {
        assert OrderBefore(meta, nums, entries[i], entries[j]);
      }
      MatchNumsInOrder(w, meta, nums, init, event);
      var ns := MatchNums(w, nums, init, event);
      forall i | 0 <= i < |ns| ensures OrderIn(meta, ns[i]) < OrderIn(meta, NumOf(nums, last)) {
        MatchNumsMembers(w, nums, init, event, ns[i]);
        var k :| 0 <= k < |init| && EntryHolds(w, init[k], event) && NumOf(nums, init[k]) == ns[i];
        assert OrderBefore(meta, nums, entries[k], entries[|entries| - 1]);
      }
    }
  }

  lemma {:induction false} MatchNumsIds<T(!new)>(w: World, nb: Numbering<T>, nums: map<T, nat>, entries: seq<Entry<T>>,
                                                 event: Rules.Event, k: nat)
    requires forall i :: 0 <= i < |entries| ==> IsNumbered(nb, nums, entries[i])
    requires k < |MatchNums(w, nums, entries, event)|
    ensures MatchNums(w, nums, entries, event)[k] < |nb.ids|
    ensures nb.ids[MatchNums(w, nums, entries, event)[k]] == Matches(w, entries, event)[k]
  {
    var init, last := entries[..|entries| - 1], entries[|entries| - 1];
    assert IsNumbered(nb, nums, last);
    if k < |MatchNums(w, nums, init, event)| {
      MatchNumsIds(w, nb, nums, init, event, k);
    }
  }

  // ----------------------------------------------------------------- results

  predicate NumLeq(a: nat, b: nat) {
    a <= b
  }

  predicate SameNum(a: nat, b: nat) {
    a == b
  }

  ghost predicate Increasing(s: seq<nat>) {
    forall i, j :: 0 <= i < j < |s| ==> s[i] < s[j]
  }

  /** Sorts the numbers and drops duplicates. */
  method SortedNumbers(out: seq<nat>) returns (r: seq<nat>)
    ensures Increasing(r) && forall n :: n in r <==> n in out
  {
    if |out| <= 1 {
      return out;
    }
    var sorted := Sort(NumLeq, out);
    SortCorrect(NumLeq, out);
    r := Compact(SameNum, sorted);
    CompactStrict(NumLeq, SameNum, sorted);
    CompactMembers(SameNum, sorted);
    forall n | n in out ensures n in r {
      assert n in sorted;
      var i :| 0 <= i < |sorted| && sorted[i] == n;
      var y := CompactCovers(SameNum, sorted, i);
    }
  }

  /** Keeps the visible numbers, in place in the original. */
  method FilterVisible(view: View, s: seq<nat>) returns (r: seq<nat>)
    requires Increasing(s)
    ensures Increasing(r) && forall n :: n in r <==> n in s && view.Visible(n)
  {
    r := [];
    for i := 0 to |s|
      invariant Increasing(r) && forall n :: n in r <==> n in s[..i] && view.Visible(n)
    {
      TakeNext(s, i);
      forall k | 0 <= k < |r| ensures r[k] < s[i] {
        assert r[k] in r && r[k] in s[..i];
      }
      if view.Visible(s[i]) {
        r := r + [s[i]];
      }
    }
    TakeAll(s);
  }

  predicate OrderLeq(meta: RuleMeta, a: nat, b: nat) {
    OrderIn(meta, a) <= OrderIn(meta, b)
  }

  ghost predicate OrdersDiffer(view: View) {
    forall a, b :: view.Visible(a) && view.Visible(b) && a != b ==> view.Order(a) != view.Order(b)
  }

  /** The visible ones of the collected numbers, in the order of their keys. */
  method ResultNumbers(view: View, out: seq<nat>) returns (r: seq<nat>)
    requires OrdersDiffer(view)
    ensures InOrder(view.meta, r) && forall n :: n in r <==> n in out && view.Visible(n)
  {
    if out == [] {
      return [];
    }
    var s := SortedNumbers(out);
    r := FilterVisible(view, s);
    if view.meta != map[] && |r| > 1 {
      var leq := (a, b) => OrderLeq(view.meta, a, b);
      SortCorrect(leq, r);
      SortedInOrder(view, r);
      r := Sort(leq, r);
    }
  }

  lemma {:induction false} SortedInOrder(view: View, s: seq<nat>)
    requires Increasing(s) && OrdersDiffer(view) && forall n :: n in s ==> view.Visible(n)
    ensures InOrder(view.meta, Sort((a, b) => OrderLeq(view.meta, a, b), s))
  {
    var leq := (a, b) => OrderLeq(view.meta, a, b);
    var r := Sort(leq, s);
    SortCorrect(leq, s);
    PermutationDistinct(s, r);
    forall i, j | 0 <= i < j < |r| ensures OrderIn(view.meta, r[i]) < OrderIn(view.meta, r[j]) {
      assert leq(r[i], r[j]) && r[i] in s && r[j] in s;
    }
  }

  // ------------------------------------------------------------------- views

  /** What a Match call that does not overlap with writers sees: the live numbers. */
  ghost predicate Sees<T>(view: View, nb: Numbering<T>) {
    view == View(nb.version, |nb.ids|, nb.removed, nb.meta)
  }

  lemma {:induction false} VisibleIsAlive<T>(view: View, nb: Numbering<T>, n: nat)
    requires GoodMeta(nb) && Sees(view, nb)
    ensures view.Visible(n) <==> Alive(nb, n)
  {
  }

  lemma {:induction false} AliveEntry<T(!new)>(nb: Numbering<T>, nums: map<T, nat>, entries: seq<Entry<T>>, n: nat)
    returns (i: nat)
    requires GoodNums(nb, nums, entries) && Alive(nb, n)
    ensures i < |entries| && NumOf(nums, entries[i]) == n
  {
    assert OfEntry(nb, nums, n) && Stored(entries, nb.ids[n]);
    i :| i < |entries| && entries[i].id == nb.ids[n];
  }

  lemma {:induction false} VisibleOrdersDiffer<T(!new)>(view: View, nb: Numbering<T>, nums: map<T, nat>,
                                                        entries: seq<Entry<T>>)
    requires GoodNums(nb, nums, entries) && Sees(view, nb)
    ensures OrdersDiffer(view)
  {
    forall a, b | view.Visible(a) && view.Visible(b) && a != b ensures view.Order(a) != view.Order(b) {
      VisibleIsAlive(view, nb, a);
      VisibleIsAlive(view, nb, b);
      var i := AliveEntry(nb, nums, entries, a);
      var j := AliveEntry(nb, nums, entries, b);
      if i < j {
        assert OrderBefore(nb.meta, nums, entries[i], entries[j]);
      } else {
        assert OrderBefore(nb.meta, nums, entries[j], entries[i]);
      }
    }
  }

  // ---------------------------------------------------- Match and MatchFirst

  /** The table of a HyperMatch that stores the entries. */
  ghost predicate Tabled<T(!new)>(w: World, nb: Numbering<T>, states: States, links: Links, known: Paths.Index,
                                  nums: map<T, nat>, entries: seq<Entry<T>>)
  {
    && w.Lawful() && Linked(w, states, links) && PathsKnown(states, known)
    && GoodNums(nb, nums, entries) && GoodRules(w, states, links, nums, entries)
  }

  /** A visible number is hit exactly if it is that of an entry that holds. */
  lemma {:induction false} VisibleHits<T(!new)>(w: World, nb: Numbering<T>, states: States, links: Links,
                                                known: Paths.Index, nums: map<T, nat>,
                                                entries: seq<Entry<T>>, spans: seq<Span>, view: View,
                                                event: Rules.Event, n: nat)
    requires Tabled(w, nb, states, links, known, nums, entries) && Reads(w, spans, event, known.paths) && Sees(view, nb)
    ensures Hit(w, states, links, spans, n) && view.Visible(n) <==> HoldsAs(w, nums, entries, event, n)
  {
    VisibleIsAlive(view, nb, n);
    if Hit(w, states, links, spans, n) && view.Visible(n) {
      var i := AliveEntry(nb, nums, entries, n);
      EntryHit(w, nb, states, links, known, nums, entries, spans, event, i);
    }
    if HoldsAs(w, nums, entries, event, n) {
      var i :| 0 <= i < |entries| && EntryHolds(w, entries[i], event) && NumOf(nums, entries[i]) == n;
      EntryHit(w, nb, states, links, known, nums, entries, spans, event, i);
    }
  }

  lemma {:induction false} EntryHit<T(!new)>(w: World, nb: Numbering<T>, states: States, links: Links,
                                             known: Paths.Index, nums: map<T, nat>,
                                             entries: seq<Entry<T>>, spans: seq<Span>, event: Rules.Event, i: nat)
    requires Tabled(w, nb, states, links, known, nums, entries) && Reads(w, spans, event, known.paths) && i < |entries|
    ensures Hit(w, states, links, spans, NumOf(nums, entries[i])) <==> EntryHolds(w, entries[i], event)
    ensures Alive(nb, NumOf(nums, entries[i]))
  {
    assert IsNumbered(nb, nums, entries[i]);
    assert RulesAt(w, states, links, NumOf(nums, entries[i]), entries[i].rules);
    HitMeansHolds(w, states, links, known, spans, event, NumOf(nums, entries[i]), entries[i]);
  }

  function IdsOf<T>(ids: seq<T>, ns: seq<nat>): (r: seq<T>)
    requires forall k :: 0 <= k < |ns| ==> ns[k] < |ids|
    ensures |r| == |ns| && forall k :: 0 <= k < |ns| ==> r[k] == ids[ns[k]]
  {
    seq(|ns|, k requires 0 <= k < |ns| => ids[ns[k]])
  }

  /** The results of a walk are what Match promises. */
  lemma {:induction false} ResultsCorrect<T(!new)>(w: World, nb: Numbering<T>, states: States, links: Links,
                                                   known: Paths.Index, nums: map<T, nat>,
                                                   entries: seq<Entry<T>>, spans: seq<Span>, view: View,
                                                   event: Rules.Event, ns: seq<nat>)
    requires Tabled(w, nb, states, links, known, nums, entries) && Reads(w, spans, event, known.paths) && Sees(view, nb)
    requires InOrder(view.meta, ns) && forall n :: n in ns <==> Hit(w, states, links, spans, n) && view.Visible(n)
    ensures forall k :: 0 <= k < |ns| ==> ns[k] < |nb.ids|
    ensures IdsOf(nb.ids, ns) == Matches(w, entries, event)
  {
    var want := MatchNums(w, nums, entries, event);
    MatchNumsInOrder(w, nb.meta, nums, entries, event);
    forall n: nat ensures n in ns <==> n in want {
      MatchNumsMembers(w, nums, entries, event, n);
      VisibleHits(w, nb, states, links, known, nums, entries, spans, view, event, n);
    }
    SameOrder(nb.meta, ns, want);
    forall k | 0 <= k < |ns| ensures ns[k] < |nb.ids| && nb.ids[ns[k]] == Matches(w, entries, event)[k] {
      MatchNumsIds(w, nb, nums, entries, event, k);
    }
  }

  /** The best rule of a pruned walk is the first of the results. */
  lemma {:induction false} BestIsFirst<T(!new)>(w: World, nb: Numbering<T>, states: States, links: Links,
                                                known: Paths.Index, nums: map<T, nat>,
                                                entries: seq<Entry<T>>, spans: seq<Span>, view: View,
                                                event: Rules.Event, best: Option<nat>)
    requires Tabled(w, nb, states, links, known, nums, entries) && Reads(w, spans, event, known.paths) && Sees(view, nb)
    requires Improved(states, view, None, LiveSet(w, links, spans, 0), best)
    ensures best.None? <==> Matches(w, entries, event) == []
    ensures best.Some? ==> best.value < |nb.ids| && nb.ids[best.value] == Matches(w, entries, event)[0]
  {
    var want := MatchNums(w, nums, entries, event);
    MatchNumsInOrder(w, nb.meta, nums, entries, event);
    forall n ensures n in want <==> Hit(w, states, links, spans, n) && view.Visible(n) {
      WantedVisible(w, nb, states, links, known, nums, entries, spans, view, event, n);
    }
    ImprovedIsFirst(w, states, links, spans, view, best, want);
    if want != [] {
      MatchNumsIds(w, nb, nums, entries, event, 0);
    }
  }

  /** The best rule is wanted, and no wanted one has a smaller key. */
  lemma {:induction false} ImprovedIsLeast(w: World, states: States, links: Links, spans: seq<Span>, view: View,
                                           best: Option<nat>, n: nat)
    requires |links| == |states| && Improved(states, view, None, LiveSet(w, links, spans, 0), best)
    ensures best.Some? ==> Hit(w, states, links, spans, best.value) && view.Visible(best.value)
    ensures Hit(w, states, links, spans, n) && view.Visible(n) ==> best.Some? && view.Order(best.value) <= view.Order(n)
  {
  }

  lemma {:induction false} LeastIsFirst(meta: RuleMeta, want: seq<nat>, b: nat)
    requires InOrder(meta, want) && b in want && OrderIn(meta, b) <= OrderIn(meta, want[0])
    ensures b == want[0]
  {
    var k :| 0 <= k < |want| && want[k] == b;
  }

  lemma {:induction false} ImprovedIsFirst(w: World, states: States, links: Links, spans: seq<Span>, view: View,
                                           best: Option<nat>, want: seq<nat>)
    requires |links| == |states| && InOrder(view.meta, want)
    requires Improved(states, view, None, LiveSet(w, links, spans, 0), best)
    requires forall n :: n in want <==> Hit(w, states, links, spans, n) && view.Visible(n)
    ensures best == if want == [] then None else Some(want[0])
  {
    var n := if want == [] then 0 else want[0];
    assert want != [] ==> n in want;
    ImprovedIsLeast(w, states, links, spans, view, best, n);
    if want != [] {
      LeastIsFirst(view.meta, want, best.value);
    }
  }

  lemma {:induction false} WantedVisible<T(!new)>(w: World, nb: Numbering<T>, states: States, links: Links,
                                                  known: Paths.Index, nums: map<T, nat>,
                                                  entries: seq<Entry<T>>, spans: seq<Span>, view: View,
                                                  event: Rules.Event, n: nat)
    requires Tabled(w, nb, states, links, known, nums, entries) && Reads(w, spans, event, known.paths) && Sees(view, nb)
    ensures n in MatchNums(w, nums, entries, event) <==> Hit(w, states, links, spans, n) && view.Visible(n)
  {
    MatchNumsMembers(w, nums, entries, event, n);
    VisibleHits(w, nb, states, links, known, nums, entries, spans, view, event, n);
  }
}
