/** The numbers of the rules of a HyperMatch, and what they stand for (table in hypermatch.go). */
module RuleTables {
  import opened ByteStrings
  import opened Semantics
  import opened Tries
  import opened Visibility
  import opened Normalize
  import Rules

  /** What a caller has stored: the rules added under each identifier, in the order of the identifiers. */
  datatype Entry<T> = Entry(id: T, rules: seq<Rules.ConditionSet>)

  /** The identifiers by rule number, and which numbers are visible from when on. */
  datatype Numbering<T> = Numbering(ids: seq<T>, removed: set<nat>, version: nat, meta: RuleMeta)

  // ------------------------------------------------------------ what is stored

  function Find<T(==)>(entries: seq<Entry<T>>, id: T): (i: Option<nat>)
    ensures i.Some? ==> i.value < |entries| && entries[i.value].id == id
    ensures i.None? ==> forall j :: 0 <= j < |entries| ==> entries[j].id != id
  {
    if entries == [] then None
    else if entries[0].id == id then Some(0)
    else
      match Find(entries[1..], id)
      case None => None
      case Some(j) => Some(j + 1)
  }

  function Added<T(==)>(entries: seq<Entry<T>>, id: T, rule: Rules.ConditionSet): seq<Entry<T>> {
    match Find(entries, id)
    case None => entries + [Entry(id, [rule])]
    case Some(i) => entries[i := Entry(id, entries[i].rules + [rule])]
  }

  /** The identifier keeps its position. */
  function Replaced<T(==)>(entries: seq<Entry<T>>, id: T, rule: Rules.ConditionSet): seq<Entry<T>> {
    match Find(entries, id)
    case None => entries + [Entry(id, [rule])]
    case Some(i) => entries[i := Entry(id, [rule])]
  }

  function Without<T>(entries: seq<Entry<T>>, i: nat): seq<Entry<T>>
    requires i < |entries|
  {
    entries[..i] + entries[i + 1..]
  }

  function Removed<T(==)>(entries: seq<Entry<T>>, id: T): seq<Entry<T>> {
    match Find(entries, id)
    case None => entries
    case Some(i) => Without(entries, i)
  }

  ghost predicate EntryHolds<T>(w: World, e: Entry<T>, event: Rules.Event) {
    exists r :: r in e.rules && Rules.RuleHolds(w, r, event)
  }

  /** What Match promises: the identifiers with a rule that holds, each once, in order of addition. */
  ghost function Matches<T>(w: World, entries: seq<Entry<T>>, event: Rules.Event): seq<T> {
    if entries == [] then []
    else
      var init, last := entries[..|entries| - 1], entries[|entries| - 1];
      Matches(w, init, event) + if EntryHolds(w, last, event) then [last.id] else []
  }

  // ------------------------------------------------------------- the invariant

  ghost predicate Alive<T>(nb: Numbering<T>, n: nat) {
    n < |nb.ids| && n !in nb.removed && (n in nb.meta ==> nb.meta[n].until == 0)
  }

  ghost predicate GoodMeta<T>(nb: Numbering<T>) {
    && (forall n :: n in nb.meta ==>
          n < |nb.ids| && nb.meta[n].from <= nb.version && nb.meta[n].until <= nb.version && nb.meta[n].order <= n)
    && (forall n :: n in nb.removed ==> n < |nb.ids|)
  }

  /** The number of the entry e. */
  ghost function NumOf<T>(nums: map<T, nat>, e: Entry<T>): nat {
    if e.id in nums then nums[e.id] else 0
  }

  ghost predicate IsNumbered<T>(nb: Numbering<T>, nums: map<T, nat>, e: Entry<T>) {
    e.id in nums && Alive(nb, nums[e.id]) && nb.ids[nums[e.id]] == e.id
  }

  ghost predicate OfEntry<T>(nb: Numbering<T>, nums: map<T, nat>, n: nat)
    requires Alive(nb, n)
  {
    nb.ids[n] in nums && nums[nb.ids[n]] == n
  }

  ghost predicate Stored<T>(entries: seq<Entry<T>>, id: T) {
    exists i :: 0 <= i < |entries| && entries[i].id == id
  }

  ghost predicate OrderBefore<T>(meta: RuleMeta, nums: map<T, nat>, a: Entry<T>, b: Entry<T>) {
    OrderIn(meta, NumOf(nums, a)) < OrderIn(meta, NumOf(nums, b))
  }

  /** The live numbers are those of the entries, and their order keys are in the order of the entries. */
  ghost predicate GoodNums<T(!new)>(nb: Numbering<T>, nums: map<T, nat>, entries: seq<Entry<T>>) {
    && GoodMeta(nb)
    && (forall i :: 0 <= i < |entries| ==> IsNumbered(nb, nums, entries[i]))
    && (forall n: nat :: Alive(nb, n) ==> OfEntry(nb, nums, n))
    && (forall id :: id in nums ==> Stored(entries, id))
    && (forall i, j :: 0 <= i < j < |entries| ==> OrderBefore(nb.meta, nums, entries[i], entries[j]))
  }

  /** All rules ending anywhere have numbers below limit. */
  ghost predicate RulesBelow(states: States, limit: nat) {
    forall t, n :: 0 <= t < |states| && n in states[t].rules ==> n < limit
  }

  /** conds is one of the condition sets of the rules. */
  ghost predicate Compiled(w: World, rules: seq<Rules.ConditionSet>, conds: seq<NCond>) {
    exists r :: r in rules && NormalizeRule(w, r).Some? && conds in NormalizeRule(w, r).value
  }

  /** The number n ends exactly where the condition sets of the rules lead. */
  ghost predicate RulesAt(w: World, states: States, links: Links, n: nat, rules: seq<Rules.ConditionSet>) {
    forall conds :: HasRule(states, links, conds, n) <==> Compiled(w, rules, conds)
  }

  ghost predicate GoodRules<T>(w: World, states: States, links: Links, nums: map<T, nat>, entries: seq<Entry<T>>) {
    && (forall i :: 0 <= i < |entries| ==> RulesAt(w, states, links, NumOf(nums, entries[i]), entries[i].rules))
    && (forall i, r :: 0 <= i < |entries| && r in entries[i].rules ==> NormalizeRule(w, r).Some?)
  }

  /** Dead numbers make up less than a quarter of all. */
  ghost predicate Counted(ids: nat, dead: nat, entries: nat) {
    dead + entries == ids && (4 * dead < ids || ids == 0)
  }

  // ---------------------------------------------------------------- lemmas

  lemma {:induction false} NumsDiffer<T(!new)>(nb: Numbering<T>, nums: map<T, nat>, entries: seq<Entry<T>>, i: nat,
                                               j: nat)
    requires GoodNums(nb, nums, entries) && i < |entries| && j < |entries| && i != j
    ensures NumOf(nums, entries[i]) != NumOf(nums, entries[j]) && entries[i].id != entries[j].id
  {
    if i < j {
      assert OrderBefore(nb.meta, nums, entries[i], entries[j]);
    } else {
      assert OrderBefore(nb.meta, nums, entries[j], entries[i]);
    }
  }

  /** The entry of a number that is present. */
  lemma {:induction false} FindNumbered<T(!new)>(nb: Numbering<T>, nums: map<T, nat>, entries: seq<Entry<T>>, id: T)
    requires GoodNums(nb, nums, entries)
    ensures id in nums <==> Find(entries, id).Some?
    ensures id in nums ==> var i := Find(entries, id).value;
                           IsNumbered(nb, nums, entries[i]) && NumOf(nums, entries[i]) == nums[id] &&
                           nums[id] < |nb.ids|
  {
    assert id in nums ==> Stored(entries, id);
  }

  lemma {:induction false} OrderBound<T>(nb: Numbering<T>, n: nat)
    requires GoodMeta(nb)
    ensures OrderIn(nb.meta, n) <= n
  {
  }

  // --------------------------------------------------------------- AddRule

  /** newNumber: an identifier without rules. */
  lemma {:induction false} NewNumberGood<T(!new)>(nb: Numbering<T>, nums: map<T, nat>, entries: seq<Entry<T>>, id: T)
    requires GoodNums(nb, nums, entries) && id !in nums
    ensures GoodNums(nb.(ids := nb.ids + [id]), nums[id := |nb.ids|], entries + [Entry(id, [])])
  {
    var nb', nums', more := nb.(ids := nb.ids + [id]), nums[id := |nb.ids|], entries + [Entry(id, [])];
    forall i | 0 <= i < |more| ensures IsNumbered(nb', nums', more[i]) {
      assert i < |entries| ==> IsNumbered(nb, nums, entries[i]);
    }
    forall n: nat | Alive(nb', n) ensures OfEntry(nb', nums', n) {
      assert n < |nb.ids| ==> Alive(nb, n) && OfEntry(nb, nums, n);
    }
    forall k | k in nums' ensures Stored(more, k) {
      NewStored(nums, entries, id, k);
    }
    forall i, j | 0 <= i < j < |more| ensures OrderBefore(nb.meta, nums', more[i], more[j]) {
      assert IsNumbered(nb, nums, entries[i]);
      assert j < |entries| ==> OrderBefore(nb.meta, nums, entries[i], entries[j]) && IsNumbered(nb, nums, entries[j]);
      OrderBound(nb, nums[entries[i].id]);
    }
  }

  lemma {:induction false} NewStored<T>(nums: map<T, nat>, entries: seq<Entry<T>>, id: T, k: T)
    requires k in nums ==> Stored(entries, k)
    requires k in nums || k == id
    ensures Stored(entries + [Entry(id, [])], k)
  {
    var more := entries + [Entry(id, [])];
    if k == id {
      assert more[|entries|].id == k;
    } else {
      var i :| 0 <= i < |entries| && entries[i].id == k;
      assert more[i].id == k;
    }
  }

  lemma {:induction false} NewNumberRules<T(!new)>(w: World, nb: Numbering<T>, states: States, links: Links,
                                                   nums: map<T, nat>,
                                                   entries: seq<Entry<T>>, id: T)
    requires GoodNums(nb, nums, entries) && GoodRules(w, states, links, nums, entries)
    requires RulesBelow(states, |nb.ids|) && id !in nums
    ensures GoodRules(w, states, links, nums[id := |nb.ids|], entries + [Entry(id, [])])
  {
    var nums', more := nums[id := |nb.ids|], entries + [Entry(id, [])];
    forall i | 0 <= i < |more| ensures RulesAt(w, states, links, NumOf(nums', more[i]), more[i].rules) {
      if i < |entries| {
        assert IsNumbered(nb, nums, entries[i]) && RulesAt(w, states, links, NumOf(nums, entries[i]), entries[i].rules);
      }
    }
  }

  /** What adding the condition sets of a number changes. */
  ghost predicate SetsAdded(states: States, links: Links, states': States, links': Links, num: nat,
                            sets: seq<seq<NCond>>)
  {
    forall conds, n :: HasRule(states', links', conds, n) <==>
      HasRule(states, links, conds, n) || (n == num && conds in sets)
  }

  lemma {:induction false} AddedRuleGood<T(!new)>(w: World, nb: Numbering<T>, states: States, links: Links,
                                                  states': States, links': Links,
                                                  nums: map<T, nat>, entries: seq<Entry<T>>, i: nat,
                                                  rule: Rules.ConditionSet)
    requires GoodNums(nb, nums, entries) && GoodRules(w, states, links, nums, entries)
    requires i < |entries| && NormalizeRule(w, rule).Some?
    requires SetsAdded(states, links, states', links', NumOf(nums, entries[i]), NormalizeRule(w, rule).value)
    ensures var more := entries[i := Entry(entries[i].id, entries[i].rules + [rule])];
            GoodNums(nb, nums, more) && GoodRules(w, states', links', nums, more)
  {
    var more := entries[i := Entry(entries[i].id, entries[i].rules + [rule])];
    SameIds(nb, nums, entries, more);
    forall j | 0 <= j < |more| ensures RulesAt(w, states', links', NumOf(nums, more[j]), more[j].rules) {
      assert RulesAt(w, states, links, NumOf(nums, entries[j]), entries[j].rules);
      if j == i {
        OneRuleMore(w, entries[i].rules, rule);
      } else {
        NumsDiffer(nb, nums, entries, i, j);
      }
    }
    forall j, r | 0 <= j < |more| && r in more[j].rules ensures NormalizeRule(w, r).Some? {
      assert r == rule || r in entries[j].rules;
    }
  }

  lemma {:induction false} OneRuleMore(w: World, rules: seq<Rules.ConditionSet>, rule: Rules.ConditionSet)
    requires NormalizeRule(w, rule).Some?
    ensures forall conds :: Compiled(w, rules + [rule], conds) <==>
                            Compiled(w, rules, conds) || conds in NormalizeRule(w, rule).value
  {
    assert rule in rules + [rule] && forall r :: r in rules ==> r in rules + [rule];
  }

  lemma {:induction false} SameIds<T(!new)>(nb: Numbering<T>, nums: map<T, nat>, entries: seq<Entry<T>>,
                                            more: seq<Entry<T>>)
    requires GoodNums(nb, nums, entries) && |more| == |entries|
    requires forall i :: 0 <= i < |entries| ==> more[i].id == entries[i].id
    ensures GoodNums(nb, nums, more)
  {
    forall i | 0 <= i < |more| ensures IsNumbered(nb, nums, more[i]) {
      assert IsNumbered(nb, nums, entries[i]);
    }
    forall id | id in nums ensures Stored(more, id) {
      var i :| 0 <= i < |entries| && entries[i].id == id;
      assert more[i].id == id;
    }
    forall i, j | 0 <= i < j < |more| ensures OrderBefore(nb.meta, nums, more[i], more[j]) {
      assert OrderBefore(nb.meta, nums, entries[i], entries[j]);
    }
  }

  // ----------------------------------------------------------- ReplaceRule

  /** metaSpan: from which version on rule n is visible. */
  function FromOf(meta: RuleMeta, n: nat): nat {
    if n in meta then meta[n].from else 0
  }

  /** The numbering after the number old was replaced with a new one, which takes over its order key. */
  function ReplacedNumbering<T>(nb: Numbering<T>, old_: nat, id: T): Numbering<T> {
    var v, order := nb.version + 1, OrderIn(nb.meta, old_);
    Numbering(nb.ids + [id], nb.removed, v,
              nb.meta[|nb.ids| := Meta(v, 0, order)][old_ := Meta(FromOf(nb.meta, old_), v, order)])
  }

  lemma {:induction false} ReplacedAlive<T>(nb: Numbering<T>, old_: nat, id: T, n: nat)
    requires GoodMeta(nb) && Alive(nb, old_)
    ensures Alive(ReplacedNumbering(nb, old_, id), n) <==> n == |nb.ids| || (n != old_ && Alive(nb, n))
    ensures n < |nb.ids| ==> OrderIn(ReplacedNumbering(nb, old_, id).meta, n) == OrderIn(nb.meta, n)
    ensures OrderIn(ReplacedNumbering(nb, old_, id).meta, |nb.ids|) == OrderIn(nb.meta, old_)
  {
  }

  /** A call that has loaded an earlier version sees of the numbers there were the same ones, and not the new one. */
  lemma {:induction false} ReplacedPast<T>(nb: Numbering<T>, old_: nat, id: T, version: nat, n: nat)
    requires GoodMeta(nb) && Alive(nb, old_) && version <= nb.version
    ensures n < |nb.ids| ==>
              (VisibleIn(ReplacedNumbering(nb, old_, id).meta, version, n) <==> VisibleIn(nb.meta, version, n))
    ensures !VisibleIn(ReplacedNumbering(nb, old_, id).meta, version, |nb.ids|)
  {
  }

  lemma {:induction false} ReplacedGood<T(!new)>(nb: Numbering<T>, nums: map<T, nat>, entries: seq<Entry<T>>, i: nat,
                                                 rule: Rules.ConditionSet)
    requires GoodNums(nb, nums, entries) && i < |entries|
    ensures var id := entries[i].id;
            GoodNums(ReplacedNumbering(nb, NumOf(nums, entries[i]), id), nums[id := |nb.ids|],
                     entries[i := Entry(id, [rule])])
  {
    assert IsNumbered(nb, nums, entries[i]);
    var id, o := entries[i].id, NumOf(nums, entries[i]);
    var nb', nums', more := ReplacedNumbering(nb, o, id), nums[id := |nb.ids|], entries[i := Entry(id, [rule])];
    forall j | 0 <= j < |more| ensures IsNumbered(nb', nums', more[j]) {
      ReplacedNumber(nb, nums, entries, i, rule, j);
    }
    forall n: nat | Alive(nb', n) ensures OfEntry(nb', nums', n) {
      ReplacedAlive(nb, o, id, n);
      assert Alive(nb, n) ==> OfEntry(nb, nums, n);
      assert OfEntry(nb, nums, o);
    }
    forall k | k in nums' ensures Stored(more, k) {
      assert k in nums;
      var j :| 0 <= j < |entries| && entries[j].id == k;
      assert more[j].id == k;
    }
    forall a, b | 0 <= a < b < |more| ensures OrderBefore(nb'.meta, nums', more[a], more[b]) {
      assert OrderBefore(nb.meta, nums, entries[a], entries[b]);
      ReplacedNumber(nb, nums, entries, i, rule, a);
      ReplacedNumber(nb, nums, entries, i, rule, b);
    }
  }

  lemma {:induction false} ReplacedNumber<T(!new)>(nb: Numbering<T>, nums: map<T, nat>, entries: seq<Entry<T>>, i: nat,
                                                   rule: Rules.ConditionSet, j: nat)
    requires GoodNums(nb, nums, entries) && i < |entries| && j < |entries|
    ensures var id, o := entries[i].id, NumOf(nums, entries[i]);
            var nb', nums', more := ReplacedNumbering(nb, o, id), nums[id := |nb.ids|], entries[i := Entry(id, [rule])];
            && IsNumbered(nb', nums', more[j])
            && OrderIn(nb'.meta, NumOf(nums', more[j])) == OrderIn(nb.meta, NumOf(nums, entries[j]))
  {
    assert IsNumbered(nb, nums, entries[i]) && IsNumbered(nb, nums, entries[j]);
    var id, o := entries[i].id, NumOf(nums, entries[i]);
    ReplacedAlive(nb, o, id, |nb.ids|);
    ReplacedAlive(nb, o, id, NumOf(nums, entries[j]));
    if j != i {
      NumsDiffer(nb, nums, entries, i, j);
    }
  }

  lemma {:induction false} ReplacedRules<T(!new)>(w: World, nb: Numbering<T>, states: States, links: Links,
                                                  states': States, links': Links,
                                                  nums: map<T, nat>, entries: seq<Entry<T>>, i: nat,
                                                  rule: Rules.ConditionSet)
    requires GoodNums(nb, nums, entries) && GoodRules(w, states, links, nums, entries) && RulesBelow(states, |nb.ids|)
    requires i < |entries| && NormalizeRule(w, rule).Some?
    requires SetsAdded(states, links, states', links', |nb.ids|, NormalizeRule(w, rule).value)
    ensures var id := entries[i].id;
            GoodRules(w, states', links', nums[id := |nb.ids|], entries[i := Entry(id, [rule])])
  {
    var id := entries[i].id;
    var nums', more := nums[id := |nb.ids|], entries[i := Entry(id, [rule])];
    forall j | 0 <= j < |more| ensures RulesAt(w, states', links', NumOf(nums', more[j]), more[j].rules) {
      assert IsNumbered(nb, nums, entries[j]) && RulesAt(w, states, links, NumOf(nums, entries[j]), entries[j].rules);
      if j == i {
        OneRuleMore(w, [], rule);
        assert [] + [rule] == [rule];
        assert forall conds :: !HasRule(states, links, conds, |nb.ids|);
      } else {
        NumsDiffer(nb, nums, entries, i, j);
      }
    }
    forall j, r | 0 <= j < |more| && r in more[j].rules ensures NormalizeRule(w, r).Some? {
      assert r == rule || r in entries[j].rules;
    }
  }

  // ------------------------------------------------------------ RemoveRule

  lemma {:induction false} RemovedGood<T(!new)>(nb: Numbering<T>, nums: map<T, nat>, entries: seq<Entry<T>>, i: nat)
    requires GoodNums(nb, nums, entries) && i < |entries|
    ensures GoodNums(nb.(removed := nb.removed + {NumOf(nums, entries[i])}), nums - {entries[i].id},
                     Without(entries, i))
  {
    var o, id, less := NumOf(nums, entries[i]), entries[i].id, Without(entries, i);
    var nb', nums' := nb.(removed := nb.removed + {o}), nums - {id};
    assert IsNumbered(nb, nums, entries[i]) && OfEntry(nb, nums, o);
    forall j | 0 <= j < |less| ensures IsNumbered(nb', nums', less[j]) &&
      NumOf(nums', less[j]) == NumOf(nums, less[j]) {
      var k := if j < i then j else j + 1;
      assert less[j] == entries[k] && IsNumbered(nb, nums, entries[k]);
      NumsDiffer(nb, nums, entries, i, k);
    }
    forall n: nat | Alive(nb', n) ensures OfEntry(nb', nums', n) {
      assert Alive(nb, n) && OfEntry(nb, nums, n);
    }
    forall k | k in nums' ensures Stored(less, k) {
      WithoutStored(entries, i, k);
    }
    forall a, b | 0 <= a < b < |less| ensures OrderBefore(nb'.meta, nums', less[a], less[b]) {
      assert OrderBefore(nb.meta, nums, entries[if a < i then a else a + 1], entries[if b < i then b else b + 1]);
    }
  }

  lemma {:induction false} WithoutStored<T>(entries: seq<Entry<T>>, i: nat, k: T)
    requires i < |entries| && Stored(entries, k) && k != entries[i].id
    ensures Stored(Without(entries, i), k)
  {
    var j :| 0 <= j < |entries| && entries[j].id == k;
    assert Without(entries, i)[if j < i then j else j - 1].id == k;
  }

  lemma {:induction false} RemovedRules<T(!new)>(w: World, nb: Numbering<T>, states: States, links: Links,
                                                 nums: map<T, nat>,
                                                 entries: seq<Entry<T>>, i: nat)
    requires GoodNums(nb, nums, entries) && GoodRules(w, states, links, nums, entries) && i < |entries|
    ensures GoodRules(w, states, links, nums - {entries[i].id}, Without(entries, i))
  {
    var less, nums' := Without(entries, i), nums - {entries[i].id};
    forall j | 0 <= j < |less| ensures RulesAt(w, states, links, NumOf(nums', less[j]), less[j].rules) {
      var k := if j < i then j else j + 1;
      assert less[j] == entries[k] && IsNumbered(nb, nums, entries[k]);
      NumsDiffer(nb, nums, entries, i, k);
      assert RulesAt(w, states, links, NumOf(nums, entries[k]), entries[k].rules);
    }
    forall j, r | 0 <= j < |less| && r in less[j].rules ensures NormalizeRule(w, r).Some? {
      assert less[j] == entries[if j < i then j else j + 1];
    }
  }
}
