/** The steps of AddRule, ReplaceRule, RemoveRule and compact keep the table in order (hypermatch.go). */
module RuleTableSteps {
  import opened ByteStrings
  import opened Sorting
  import opened Semantics
  import opened Tries
  import opened Visibility
  import opened Normalize
  import opened RuleTables
  import opened Results
  import opened Insertions
  import Paths
  import Rules

  /** The invariant of a table and of what the HyperMatch records about it. */
  ghost predicate Good<T(!new)>(w: World, nb: Numbering<T>, states: States, links: Links, known: Paths.Index,
                                nums: map<T, nat>, entries: seq<Entry<T>>)
  {
    && Tabled(w, nb, states, links, known, nums, entries)
    && KeysBound(states, links, nb.meta) && NoDuplicates(states) && RulesBelow(states, |nb.ids|)
  }

  /** What AddSets leaves behind. */
  ghost predicate Grown(w: World, states: States, links: Links, states': States, links': Links, known: Paths.Index,
                        num: nat, sets: seq<seq<NCond>>, meta: RuleMeta, limit: nat)
  {
    && Linked(w, states', links') && PathsKnown(states', known) && KeysBound(states', links', meta)
    && NoDuplicates(states') && RulesBelow(states', limit)
    && SetsAdded(states, links, states', links', num, sets)
  }

  lemma {:induction false} NewNumberStep<T(!new)>(w: World, nb: Numbering<T>, states: States, links: Links,
                                                  known: Paths.Index,
                                                  nums: map<T, nat>, entries: seq<Entry<T>>, id: T)
    requires Good(w, nb, states, links, known, nums, entries) && id !in nums
    ensures Good(w, nb.(ids := nb.ids + [id]), states, links, known, nums[id := |nb.ids|], entries + [Entry(id, [])])
    ensures Absent(states, |nb.ids|) && Find(entries, id).None?
  {
    NewNumberGood(nb, nums, entries, id);
    NewNumberRules(w, nb, states, links, nums, entries, id);
    FindNumbered(nb, nums, entries, id);
  }

  lemma {:induction false} AddedStep<T(!new)>(w: World, nb: Numbering<T>, states: States, links: Links,
                                              known: Paths.Index,
                                              states': States, links': Links, known': Paths.Index,
                                              nums: map<T, nat>, entries: seq<Entry<T>>, i: nat,
                                              rule: Rules.ConditionSet)
    requires Good(w, nb, states, links, known, nums, entries) && i < |entries| && NormalizeRule(w, rule).Some?
    requires Grown(w, states, links, states', links', known', NumOf(nums, entries[i]), NormalizeRule(w, rule).value,
                   nb.meta, |nb.ids|)
    ensures Good(w, nb, states', links', known', nums, entries[i := Entry(entries[i].id, entries[i].rules + [rule])])
  {
    AddedRuleGood(w, nb, states, links, states', links', nums, entries, i, rule);
  }

  /** Order keys are as before, except for the new number. */
  lemma {:induction false} ReplacementReady<T(!new)>(nb: Numbering<T>, states: States, links: Links, meta: RuleMeta)
    requires GoodMeta(nb) && KeysBound(states, links, nb.meta) && RulesBelow(states, |nb.ids|)
    requires forall n: nat :: n < |nb.ids| ==> OrderIn(meta, n) == OrderIn(nb.meta, n)
    ensures KeysBound(states, links, meta) && RulesBelow(states, |nb.ids| + 1) && Absent(states, |nb.ids|)
  {
    forall t | 0 <= t < |states| ensures KeyOfRules(states[t], meta) {
      assert KeyOfRules(states[t], nb.meta);
    }
  }

  lemma {:induction false} SameOrdersBound(states: States, links: Links, meta: RuleMeta, meta': RuleMeta)
    requires KeysBound(states, links, meta) && forall n: nat :: OrderIn(meta', n) == OrderIn(meta, n)
    ensures KeysBound(states, links, meta')
  {
    forall t | 0 <= t < |states| ensures KeyOfRules(states[t], meta') {
      assert KeyOfRules(states[t], meta);
    }
  }

  lemma {:induction false} ReplacedStep<T(!new)>(w: World, nb: Numbering<T>, states: States, links: Links,
                                                 known: Paths.Index,
                                                 states': States, links': Links, known': Paths.Index,
                                                 nums: map<T, nat>, entries: seq<Entry<T>>, i: nat,
                                                 rule: Rules.ConditionSet, meta: RuleMeta)
    requires Good(w, nb, states, links, known, nums, entries) && i < |entries| && NormalizeRule(w, rule).Some?
    requires Grown(w, states, links, states', links', known', |nb.ids|, NormalizeRule(w, rule).value, meta,
                   |nb.ids| + 1)
    requires forall n: nat ::
               OrderIn(ReplacedNumbering(nb, NumOf(nums, entries[i]), entries[i].id).meta, n) == OrderIn(meta, n)
    ensures var id := entries[i].id;
            Good(w, ReplacedNumbering(nb, NumOf(nums, entries[i]), id), states', links', known',
                 nums[id := |nb.ids|], entries[i := Entry(id, [rule])])
  {
    ReplacedGood(nb, nums, entries, i, rule);
    ReplacedRules(w, nb, states, links, states', links', nums, entries, i, rule);
    SameOrdersBound(states', links', meta, ReplacedNumbering(nb, NumOf(nums, entries[i]), entries[i].id).meta);
  }

  lemma {:induction false} RetiredStep<T(!new)>(w: World, nb: Numbering<T>, states: States, links: Links,
                                                known: Paths.Index,
                                                states': States, links': Links, known': Paths.Index,
                                                nums: map<T, nat>, entries: seq<Entry<T>>, i: nat,
                                                rule: Rules.ConditionSet, meta: RuleMeta,
                                                nb': Numbering<T>, nums': map<T, nat>, entries': seq<Entry<T>>)
    requires Good(w, nb, states, links, known, nums, entries) && i < |entries| && NormalizeRule(w, rule).Some?
    requires Grown(w, states, links, states', links', known', |nb.ids|, NormalizeRule(w, rule).value, meta,
                   |nb.ids| + 1)
    requires var id, old_ := entries[i].id, NumOf(nums, entries[i]);
             && meta == nb.meta[|nb.ids| := Meta(nb.version + 1, 0, OrderIn(nb.meta, old_))]
             && nb' == Numbering(nb.ids + [id], nb.removed, nb.version + 1,
                                 meta[old_ := Meta(FromOf(nb.meta, old_), nb.version + 1, OrderIn(nb.meta, old_))])
             && nums' == nums[id := |nb.ids|] && entries' == entries[i := Entry(id, [rule])]
    ensures Good(w, nb', states', links', known', nums', entries')
  {
    assert nb' == ReplacedNumbering(nb, NumOf(nums, entries[i]), entries[i].id);
    assert IsNumbered(nb, nums, entries[i]);
    ReplacedStep(w, nb, states, links, known, states', links', known', nums, entries, i, rule, meta);
  }

  lemma {:induction false} RemovedStep<T(!new)>(w: World, nb: Numbering<T>, states: States, links: Links,
                                                known: Paths.Index,
                                                nums: map<T, nat>, entries: seq<Entry<T>>, i: nat)
    requires Good(w, nb, states, links, known, nums, entries) && i < |entries|
    ensures Good(w, nb.(removed := nb.removed + {NumOf(nums, entries[i])}), states, links, known,
                 nums - {entries[i].id}, Without(entries, i))
  {
    RemovedGood(nb, nums, entries, i);
    RemovedRules(w, nb, states, links, nums, entries, i);
  }

  // ----------------------------------------------------------------- compact

  /** The numbers that are still visible, in the order of their keys. */
  method LiveInOrder<T(!new)>(ids: seq<T>, removed: set<nat>, version: nat, meta: RuleMeta, ghost nb: Numbering<T>,
                              ghost nums: map<T, nat>, ghost entries: seq<Entry<T>>) returns (live: seq<nat>)
    requires nb == Numbering(ids, removed, version, meta) && GoodNums(nb, nums, entries)
    ensures |live| == |entries| && forall i :: 0 <= i < |live| ==> live[i] == NumOf(nums, entries[i]) && live[i] < |ids|
  {
    live := [];
    for n := 0 to |ids|
      invariant Increasing(live) && forall m: nat :: m in live <==> m < n && Alive(nb, m)
    {
      forall k | 0 <= k < |live| ensures live[k] < n {
        assert live[k] in live;
      }
      if n !in removed && !(n in meta && meta[n].until != 0 && meta[n].until <= version) {
        live := live + [n];
      }
    }
    ghost var view := View(version, |ids|, removed, meta);
    VisibleOrdersDiffer(view, nb, nums, entries);
    var leq := (a, b) => OrderLeq(meta, a, b);
    SortCorrect(leq, live);
    SortedInOrder(view, live);
    if meta != map[] {
      live := Sort(leq, live);
    }
    LiveAreNums(nb, nums, entries, live);
  }

  lemma {:induction false} LiveAreNums<T(!new)>(nb: Numbering<T>, nums: map<T, nat>, entries: seq<Entry<T>>,
                                                live: seq<nat>)
    requires GoodNums(nb, nums, entries) && InOrder(nb.meta, live) && forall n :: n in live <==> Alive(nb, n)
    ensures |live| == |entries|
    ensures forall i :: 0 <= i < |live| ==> live[i] == NumOf(nums, entries[i]) && live[i] < |nb.ids|
  {
    var all := seq(|entries|, i requires 0 <= i < |entries| => NumOf(nums, entries[i]));
    forall i, j | 0 <= i < j < |all| ensures OrderIn(nb.meta, all[i]) < OrderIn(nb.meta, all[j]) {
      assert OrderBefore(nb.meta, nums, entries[i], entries[j]);
    }
    forall n: nat ensures n in live <==> n in all {
      if n in live {
        var i := AliveEntry(nb, nums, entries, n);
        assert all[i] == n;
      }
      if n in all {
        var i :| 0 <= i < |all| && all[i] == n;
        assert IsNumbered(nb, nums, entries[i]);
      }
    }
    SameOrder(nb.meta, live, all);
    forall i | 0 <= i < |live| ensures live[i] < |nb.ids| {
      assert IsNumbered(nb, nums, entries[i]);
    }
  }

  /** The live numbers, renumbered in their order. */
  ghost predicate Renumbers(renum: map<nat, nat>, live: seq<nat>) {
    && (forall i :: 0 <= i < |live| ==> live[i] in renum && renum[live[i]] == i)
    && (forall n :: n in renum ==> renum[n] < |live| && live[renum[n]] == n)
  }

  ghost predicate RenumberedIds<T>(ids: seq<T>, nums: map<T, nat>, live: seq<nat>, k: nat, ids': seq<T>,
                                   nums': map<T, nat>, renum: map<nat, nat>)
    requires forall i :: 0 <= i < |live| ==> live[i] < |ids|
  {
    && k <= |live| && |ids'| == k && nums'.Keys == nums.Keys
    && (forall i :: 0 <= i < k ==> ids'[i] == ids[live[i]] && ids'[i] in nums' && nums'[ids'[i]] == i)
    && Renumbers(renum, live[..k])
  }

  lemma {:induction false} RenumberNext<T(!new)>(nb: Numbering<T>, nums: map<T, nat>, entries: seq<Entry<T>>,
                                                 live: seq<nat>, k: nat,
                                                 ids': seq<T>, nums': map<T, nat>, renum: map<nat, nat>)
    requires GoodNums(nb, nums, entries) && |live| == |entries| && k < |live|
    requires forall i :: 0 <= i < |live| ==> live[i] == NumOf(nums, entries[i]) && live[i] < |nb.ids|
    requires RenumberedIds(nb.ids, nums, live, k, ids', nums', renum)
    ensures RenumberedIds(nb.ids, nums, live, k + 1, ids' + [nb.ids[live[k]]], nums'[nb.ids[live[k]] := k],
                          renum[live[k] := k])
  {
    var id := nb.ids[live[k]];
    assert IsNumbered(nb, nums, entries[k]);
    forall i | 0 <= i < k ensures live[i] != live[k] && ids'[i] != id {
      assert IsNumbered(nb, nums, entries[i]);
      NumsDiffer(nb, nums, entries, i, k);
    }
    TakeNext(live, k);
    RenumberMore(renum, live[..k], live[k]);
  }

  lemma {:induction false} RenumberMore(renum: map<nat, nat>, live: seq<nat>, n: nat)
    requires Renumbers(renum, live) && n !in live
    ensures Renumbers(renum[n := |live|], live + [n])
  {
    assert n !in renum;
  }

  /** The loop of compact over the live numbers. */
  method RenumberAll<T(!new)>(ids: seq<T>, nums: map<T, nat>, live: seq<nat>, ghost nb: Numbering<T>,
                              ghost entries: seq<Entry<T>>)
    returns (ids': seq<T>, nums': map<T, nat>, renum: map<nat, nat>)
    requires GoodNums(nb, nums, entries) && |live| == |entries| && nb.ids == ids
    requires forall i :: 0 <= i < |live| ==> live[i] == NumOf(nums, entries[i]) && live[i] < |ids|
    ensures RenumberedIds(ids, nums, live, |live|, ids', nums', renum)
  {
    ids', nums', renum := [], nums, map[];
    for k := 0 to |live|
      invariant RenumberedIds(ids, nums, live, k, ids', nums', renum)
    {
      RenumberNext(nb, nums, entries, live, k, ids', nums', renum);
      renum := renum[live[k] := k];
      ids' := ids' + [ids[live[k]]];
      nums' := nums'[ids[live[k]] := k];
    }
  }

  lemma {:induction false} CompactedStep<T(!new)>(w: World, nb: Numbering<T>, states: States, links: Links,
                                                  known: Paths.Index,
                                                  nums: map<T, nat>, entries: seq<Entry<T>>, live: seq<nat>,
                                                  ids': seq<T>, nums': map<T, nat>,
                                                  renum: map<nat, nat>, copy: States, copyLinks: Links,
                                                  copyKnown: Paths.Index)
    requires Good(w, nb, states, links, known, nums, entries) && |live| == |entries|
    requires forall i :: 0 <= i < |live| ==> live[i] == NumOf(nums, entries[i]) && live[i] < |nb.ids|
    requires RenumberedIds(nb.ids, nums, live, |live|, ids', nums', renum)
    requires Linked(w, copy, copyLinks) && PathsKnown(copy, copyKnown) && KeysBound(copy, copyLinks, map[])
    requires NoDuplicates(copy)
    requires forall conds, m :: HasRule(copy, copyLinks, conds, m) <==>
      exists n :: HasRule(states, links, conds, n) && n in renum && renum[n] == m
    ensures Good(w, Numbering(ids', {}, 0, map[]), copy, copyLinks, copyKnown, nums', entries)
  {
    TakeAll(live);
    CompactedNums(nb, nums, entries, live, ids', nums', renum);
    forall i | 0 <= i < |entries| ensures RulesAt(w, copy, copyLinks, NumOf(nums', entries[i]), entries[i].rules) {
      assert IsNumbered(nb, nums, entries[i]) && RulesAt(w, states, links, NumOf(nums, entries[i]), entries[i].rules);
      assert NumOf(nums', entries[i]) == i;
    }
    forall t, m | 0 <= t < |copy| && m in copy[t].rules ensures m < |ids'| {
      assert HasRule(copy, copyLinks, Trail(copyLinks, t), m);
      var n :| HasRule(states, links, Trail(copyLinks, t), n) && n in renum && renum[n] == m;
    }
  }

  lemma {:induction false} CompactedNums<T(!new)>(nb: Numbering<T>, nums: map<T, nat>, entries: seq<Entry<T>>,
                                                  live: seq<nat>,
                                                  ids': seq<T>, nums': map<T, nat>, renum: map<nat, nat>)
    requires GoodNums(nb, nums, entries) && |live| == |entries|
    requires forall i :: 0 <= i < |live| ==> live[i] == NumOf(nums, entries[i]) && live[i] < |nb.ids|
    requires RenumberedIds(nb.ids, nums, live, |live|, ids', nums', renum)
    ensures GoodNums(Numbering(ids', {}, 0, map[]), nums', entries)
    ensures forall i :: 0 <= i < |entries| ==> NumOf(nums', entries[i]) == i
  {
    var nb' := Numbering(ids', {}, 0, map[]);
    forall i | 0 <= i < |entries| ensures IsNumbered(nb', nums', entries[i]) && NumOf(nums', entries[i]) == i {
      assert IsNumbered(nb, nums, entries[i]);
    }
    forall n: nat | Alive(nb', n) ensures OfEntry(nb', nums', n) {
    }
    forall i, j | 0 <= i < j < |entries| ensures OrderBefore(nb'.meta, nums', entries[i], entries[j]) {
    }
  }
}
