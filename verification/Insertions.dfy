/** Adding the condition sets of a rule to a trie (AddRule and ReplaceRule in hypermatch.go). */
module Insertions {
  import opened ByteStrings
  import opened Sorting
  import opened Semantics
  import opened Tries
  import opened Visibility
  import opened NormalizeGood
  import opened RuleTables

  /** Only the number num was added, at the end of the conditions conds. */
  lemma {:induction false} RuleAdded(w: World, before: States, states: States, links: Links, t: nat, num: nat)
    requires Linked(w, states, links) && |before| == |states| && t < |states|
    requires forall s :: 0 <= s < |states| ==>
      states[s].rules == if s == t then before[s].rules + [num] else before[s].rules
    ensures SetsAdded(before, links, states, links, num, [Trail(links, t)])
  {
    forall conds, n ensures HasRule(states, links, conds, n) <==>
                            HasRule(before, links, conds, n) || (n == num && conds in [Trail(links, t)])
    {
      if HasRule(states, links, conds, n) && !HasRule(before, links, conds, n) {
        var s :| 0 <= s < |states| && Trail(links, s) == conds && n in states[s].rules;
        assert s == t && n !in before[s].rules;
      }
      if HasRule(before, links, conds, n) {
        var s :| 0 <= s < |before| && Trail(links, s) == conds && n in before[s].rules;
        assert n in states[s].rules;
      }
      if n == num && conds == Trail(links, t) {
        assert n in states[t].rules;
      }
    }
  }

  lemma {:induction false} RuleThere(states: States, links: Links, t: nat, num: nat)
    requires |links| == |states| && t < |states| && num in states[t].rules
    ensures SetsAdded(states, links, states, links, num, [Trail(links, t)])
  {
  }

  lemma {:induction false} SetsAddedTrans(a: States, al: Links, b: States, bl: Links, c: States, cl: Links, num: nat,
                                          sets: seq<seq<NCond>>, more: seq<seq<NCond>>)
    requires SetsAdded(a, al, b, bl, num, sets) && SetsAdded(b, bl, c, cl, num, more)
    ensures SetsAdded(a, al, c, cl, num, sets + more)
  {
    forall conds, n ensures HasRule(c, cl, conds, n) <==>
      HasRule(a, al, conds, n) || (n == num && conds in sets + more) {
      assert HasRule(c, cl, conds, n) <==> HasRule(b, bl, conds, n) || (n == num && conds in more);
    }
  }

  lemma {:induction false} ExtendedAddsNothing(a: States, al: Links, b: States, bl: Links, num: nat)
    requires Extended(a, al, b, bl)
    ensures SetsAdded(a, al, b, bl, num, [])
  {
    forall conds, n ensures HasRule(b, bl, conds, n) <==> HasRule(a, al, conds, n) || (n == num && conds in []) {
      ExtendedRules(a, al, b, bl, conds, n);
    }
  }

  /** Rule numbers are stored once per state. */
  ghost predicate NoDuplicates(states: States) {
    forall t :: 0 <= t < |states| ==> Distinct(states[t].rules)
  }

  ghost predicate Absent(states: States, num: nat) {
    forall t :: 0 <= t < |states| ==> num !in states[t].rules
  }

  lemma {:induction false} ExtendedNumbers(a: States, al: Links, b: States, bl: Links, num: nat, limit: nat)
    requires Extended(a, al, b, bl)
    ensures NoDuplicates(a) ==> NoDuplicates(b)
    ensures Absent(a, num) ==> Absent(b, num)
    ensures RulesBelow(a, limit) ==> RulesBelow(b, limit)
  {
  }

  /** Adds the number to its state. A new number cannot be there yet. */
  method AddNumber(trie: Trie, w: World, t: nat, num: nat, isNew: bool, ghost meta: RuleMeta, ghost limit: nat)
    requires trie.Valid(w) && KeysBound(trie.states, trie.links, meta) && t < |trie.states|
    requires Lowered(trie.states, t, OrderIn(meta, num)) && num < limit && RulesBelow(trie.states, limit)
    requires NoDuplicates(trie.states)
    requires isNew ==> Absent(trie.states, num)
    modifies trie
    ensures trie.Valid(w) && KeysBound(trie.states, trie.links, meta)
    ensures t < |old(trie.links)| &&
            SetsAdded(old(trie.states), old(trie.links), trie.states, trie.links, num, [Trail(old(trie.links), t)])
    ensures RulesBelow(trie.states, limit) && NoDuplicates(trie.states)
  {
    ghost var b := trie.states;
    if isNew || num !in trie.states[t].rules {
      trie.AddRule(w, t, num, meta);
      RuleAdded(w, b, trie.states, trie.links, t, num);
    } else {
      RuleThere(trie.states, trie.links, t, num);
    }
  }

  /** Adds one condition set. */
  method AddSet(trie: Trie, w: World, conds: seq<NCond>, num: nat, key: nat, isNew: bool, ghost meta: RuleMeta,
                ghost limit: nat)
    requires w.Lawful() && trie.Valid(w) && KeysBound(trie.states, trie.links, meta) && GoodConds(w, conds)
    requires key == OrderIn(meta, num) && num < limit && RulesBelow(trie.states, limit) && NoDuplicates(trie.states)
    requires isNew ==> Absent(trie.states, num)
    modifies trie
    ensures trie.Valid(w) && KeysBound(trie.states, trie.links, meta)
    ensures SetsAdded(old(trie.states), old(trie.links), trie.states, trie.links, num, [conds])
    ensures RulesBelow(trie.states, limit) && NoDuplicates(trie.states)
  {
    ghost var a, al := trie.states, trie.links;
    var t := trie.Insert(w, conds, key, meta);
    ghost var b, bl := trie.states, trie.links;
    ExtendedAddsNothing(a, al, b, bl, num);
    ExtendedNumbers(a, al, b, bl, num, limit);
    AddNumber(trie, w, t, num, isNew, meta, limit);
    SetsAddedTrans(a, al, b, bl, trie.states, trie.links, num, [], [conds]);
    assert [] + [conds] == [conds];
  }

  /** Adds all condition sets of a rule. */
  method AddSets(trie: Trie, w: World, sets: seq<seq<NCond>>, num: nat, key: nat, isNew: bool, ghost meta: RuleMeta,
                 ghost limit: nat)
    requires w.Lawful() && trie.Valid(w) && KeysBound(trie.states, trie.links, meta) && GoodSets(w, sets)
    requires key == OrderIn(meta, num) && num < limit && RulesBelow(trie.states, limit) && NoDuplicates(trie.states)
    requires isNew ==> |sets| == 1 && Absent(trie.states, num)
    modifies trie
    ensures trie.Valid(w) && KeysBound(trie.states, trie.links, meta)
    ensures SetsAdded(old(trie.states), old(trie.links), trie.states, trie.links, num, sets)
    ensures RulesBelow(trie.states, limit) && NoDuplicates(trie.states)
  {
    ghost var a, al := trie.states, trie.links;
    for i := 0 to |sets|
      invariant trie.Valid(w) && KeysBound(trie.states, trie.links, meta)
      invariant SetsAdded(a, al, trie.states, trie.links, num, sets[..i])
      invariant RulesBelow(trie.states, limit) && NoDuplicates(trie.states)
      invariant isNew && i == 0 ==> Absent(trie.states, num)
    {
      TakeNext(sets, i);
      ghost var b, bl := trie.states, trie.links;
      AddSet(trie, w, sets[i], num, key, isNew, meta, limit);
      SetsAddedTrans(a, al, b, bl, trie.states, trie.links, num, sets[..i], [sets[i]]);
    }
    TakeAll(sets);
  }
}
