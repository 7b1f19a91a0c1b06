/** The public type: rules are added, replaced and removed, and events matched (hypermatch.go). */
module HyperMatches {
  import opened ByteStrings
  import opened Semantics
  import opened Tries
  import opened Visibility
  import opened Walks
  import opened Scratches
  import opened Normalize
  import opened NormalizeGood
  import opened RuleTables
  import opened Results
  import opened Insertions
  import opened RuleTableSteps
  import Compaction
  import Probing
  import Paths
  import Rules
  import NormalizeLoops
  import SpanTables
  import ValidRules
  import JsonGrammar
  import JsonText
  import JsonRecords
  import opened MatchJson
  import JsonGroups

  /** The compiled rules, until enough of them are dead. */
  class Table<T(==,!new)> {
    const trie: Trie
    var ids: seq<T>
    var removed: set<nat>
    var version: nat
    var meta: RuleMeta

    constructor (ids: seq<T>, trie: Trie)
      ensures this.ids == ids && this.trie == trie && removed == {} && version == 0 && meta == map[]
    {
      this.ids, this.trie, removed, version, meta := ids, trie, {}, 0, map[];
    }

    ghost function Numbers(): Numbering<T>
      reads this
    {
      Numbering(ids, removed, version, meta)
    }

    ghost predicate Holds(w: World, nums: map<T, nat>, entries: seq<Entry<T>>)
      reads this, trie
    {
      trie.Valid(w) && Good(w, Numbers(), trie.states, trie.links, trie.known, nums, entries)
    }

    /** begin: what is visible to a Match call. */
    method Begin() returns (view: View)
      ensures Sees(view, Numbers())
    {
      view := View(version, |ids|, removed, meta);
    }
  }

  function First<T>(s: seq<T>): Option<T> {
    if s == [] then None else Some(s[0])
  }

  lemma {:induction false} FirstRule<T>(entries: seq<Entry<T>>, id: T, rule: Rules.ConditionSet)
    ensures var more := entries + [Entry(id, [])];
            more[|entries| := Entry(id, more[|entries|].rules + [rule])] == entries + [Entry(id, [rule])]
  {
    var more := entries + [Entry(id, [])];
    assert more[|entries|] == Entry(id, []) && [] + [rule] == [rule];
  }

  class HyperMatch<T(==,!new)> {
    const w: World
    const hash: Probing.Hash
    var tab: Table<T>
    var nums: map<T, nat>
    var removed: nat
    var count: nat
    ghost var entries: seq<Entry<T>>

    /** The table holds the entries, and the dead numbers are counted. */
    ghost predicate Core()
      reads this, tab, tab.trie
    {
      && w.Lawful() && tab.Holds(w, nums, entries)
      && removed + |entries| == |tab.ids| && count == |entries|
    }

    ghost predicate Valid()
      reads this, tab, tab.trie
    {
      Core() && Counted(|tab.ids|, removed, |entries|)
    }

    constructor (w: World, hash: Probing.Hash)
      requires w.Lawful()
      ensures Valid() && entries == [] && this.w == w && this.hash == hash
      ensures fresh(tab) && fresh(tab.trie)
    {
      var trie := new Trie(w);
      this.w, this.hash := w, hash;
      tab := new Table([], trie);
      nums, removed, count, entries := map[], 0, 0, [];
    }

    /** newNumber: registers id, without any rules yet. */
    method NewNumber(id: T) returns (num: nat)
      requires Core() && id !in nums
      modifies this, tab
      ensures Core() && tab == old(tab) && removed == old(removed) && num == |old(tab.ids)| && |tab.ids| == num + 1
      ensures entries == old(entries) + [Entry(id, [])] && Find(old(entries), id).None?
      ensures id in nums && nums[id] == num && Absent(tab.trie.states, num)
    {
      NewNumberStep(w, tab.Numbers(), tab.trie.states, tab.trie.links, tab.trie.known, nums, entries, id);
      num := |tab.ids|;
      tab.ids := tab.ids + [id];
      nums := nums[id := num];
      count := count + 1;
      entries := entries + [Entry(id, [])];
    }

    /** The second half of AddRule: adds the condition sets of a rule to the identifier with index i. */
    method AddTo(ghost i: nat, id: T, rule: Rules.ConditionSet, sets: seq<seq<NCond>>, isNew: bool)
      requires Core() && i < |entries| && entries[i].id == id && id in nums
      requires NormalizeRule(w, rule) == Some(sets) && GoodSets(w, sets)
      requires isNew ==> |sets| == 1 && Absent(tab.trie.states, nums[id])
      modifies `entries, tab.trie
      ensures Core() && entries == old(entries)[i := Entry(id, old(entries)[i].rules + [rule])]
    {
      ghost var nb, states, links, known := tab.Numbers(), tab.trie.states, tab.trie.links, tab.trie.known;
      assert IsNumbered(nb, nums, entries[i]);
      AddSets(tab.trie, w, sets, nums[id], OrderIn(tab.meta, nums[id]), isNew, tab.meta, |tab.ids|);
      AddedStep(w, nb, states, links, known, tab.trie.states, tab.trie.links, tab.trie.known, nums, entries, i, rule);
      entries := entries[i := Entry(id, entries[i].rules + [rule])];
    }

    /** The first rule of a new identifier. */
    method AddFirst(id: T, rule: Rules.ConditionSet, sets: seq<seq<NCond>>)
      requires Core() && id !in nums && NormalizeRule(w, rule) == Some(sets) && GoodSets(w, sets)
      modifies this, tab, tab.trie
      ensures Core() && tab == old(tab) && removed == old(removed) && |tab.ids| == |old(tab.ids)| + 1
      ensures entries == old(entries) + [Entry(id, [rule])] && Find(old(entries), id).None?
    {
      var num := NewNumber(id);
      AddTo(|entries| - 1, id, rule, sets, |sets| == 1);
      FirstRule(old(entries), id, rule);
    }

    /** AddRule reports whether the rule was valid, and leaves everything as it was if not. */
    method AddRule(id: T, rule: Rules.ConditionSet) returns (ok: bool)
      requires Valid()
      modifies this, tab, tab.trie
      ensures Valid() && tab == old(tab)
      ensures ok <==> ValidRules.ValidRule(w, rule)
      ensures entries == if ok then Added(old(entries), id, rule) else old(entries)
    {
      var sets := NormalizeLoops.Rule(w, rule);
      ValidRules.RuleAccepted(w, rule);
      if sets.None? {
        return false;
      }
      RuleGood(w, rule);
      ok := true;
      FindNumbered(tab.Numbers(), nums, entries, id);
      if id !in nums {
        AddFirst(id, rule, sets.value);
      } else {
        AddTo(Find(entries, id).value, id, rule, sets.value, false);
      }
    }

    /** The number of identifiers. */
    method RuleCount() returns (n: nat)
      requires Valid()
      ensures n == |entries|
    {
      n := count;
    }

    /** Match: the identifiers of all rules the event matches, in the order in which they were added. */
    method Match(event: Rules.Event) returns (r: seq<T>)
      requires Valid()
      ensures r == Matches(w, entries, event)
    {
      var view := tab.Begin();
      var spans := SpanTables.Reset(w, hash, event, tab.trie.known);
      var ns := Numbers(spans, view, event);
      ResultsCorrect(w, tab.Numbers(), tab.trie.states, tab.trie.links, tab.trie.known, nums, entries, spans, view,
                     event, ns);
      r := IdsOf(tab.ids, ns);
    }

    /** Like Match on the flattened object, or None if the tokens are not an object. */
    method MatchTokens(toks: seq<JsonGrammar.Token>) returns (r: Option<seq<T>>)
      requires Valid()
      ensures r.Some? <==> EventMembers(toks).Some?
      ensures r.Some? ==> r.value == Matches(w, entries, JsonRecords.FlattenMembers(EventMembers(toks).value, []))
    {
      var view := tab.Begin();
      var spans := JsonGroups.ResetJson(w, hash, toks, tab.trie.known);
      if spans.None? {
        return None;
      }
      ghost var event := JsonRecords.FlattenMembers(EventMembers(toks).value, []);
      var ns := Numbers(spans.value, view, event);
      ResultsCorrect(w, tab.Numbers(), tab.trie.states, tab.trie.links, tab.trie.known, nums, entries, spans.value,
                     view, event, ns);
      return Some(IdsOf(tab.ids, ns));
    }

    /** MatchJSON: like Match on the members of the object, or None if the data is not the text of one. */
    method MatchJson(decode: JsonText.Decode, data: Bytes) returns (r: Option<seq<T>>)
      requires Valid()
      ensures r.Some? <==> exists members :: JsonText.IsObjectText(decode, data, members)
      ensures forall members :: JsonText.IsObjectText(decode, data, members) ==>
                                  r == Some(Matches(w, entries, JsonRecords.FlattenMembers(members, [])))
    {
      var toks := JsonText.Lex(decode, data);
      forall members
        ensures JsonText.IsObjectText(decode, data, members) <==> LexedMembers(toks) == Some(members)
      {
        LexedObject(decode, data, toks, members);
      }
      if toks.None? {
        return None;
      }
      r := MatchTokens(toks.value);
    }

    /** Walks the trie once and sorts what was found. */
    method Numbers(spans: seq<Span>, view: View, ghost event: Rules.Event) returns (ns: seq<nat>)
      requires Valid() && Sees(view, tab.Numbers()) && Reads(w, spans, event, tab.trie.known.paths)
      ensures InOrder(view.meta, ns)
      ensures forall n :: n in ns <==> Hit(w, tab.trie.states, tab.trie.links, spans, n) && view.Visible(n)
    {
      var sc := new Scratch(w, spans, view, false);
      sc.Visit(tab.trie.states, 0, tab.trie.links, tab.trie.edgeSeq);
      CollectedHits(w, tab.trie.states, tab.trie.links, spans, sc.out, sc.visited);
      VisibleOrdersDiffer(view, tab.Numbers(), nums, entries);
      ns := ResultNumbers(view, sc.out);
    }

    /** MatchFirst: what Match would return first, if anything. */
    method MatchFirst(event: Rules.Event) returns (r: Option<T>)
      requires Valid()
      ensures r == First(Matches(w, entries, event))
    {
      var view := tab.Begin();
      var spans := SpanTables.Reset(w, hash, event, tab.trie.known);
      r := BestOf(spans, view, event);
    }

    method MatchFirstTokens(toks: seq<JsonGrammar.Token>) returns (ok: bool, r: Option<T>)
      requires Valid()
      ensures ok <==> EventMembers(toks).Some?
      ensures ok ==> r == First(Matches(w, entries, JsonRecords.FlattenMembers(EventMembers(toks).value, [])))
    {
      var view := tab.Begin();
      var spans := JsonGroups.ResetJson(w, hash, toks, tab.trie.known);
      if spans.None? {
        return false, None;
      }
      ok := true;
      r := BestOf(spans.value, view, JsonRecords.FlattenMembers(EventMembers(toks).value, []));
    }

    /** MatchFirstJSON. */
    method MatchFirstJson(decode: JsonText.Decode, data: Bytes) returns (ok: bool, r: Option<T>)
      requires Valid()
      ensures ok <==> exists members :: JsonText.IsObjectText(decode, data, members)
      ensures forall members :: JsonText.IsObjectText(decode, data, members) ==>
                                  r == First(Matches(w, entries, JsonRecords.FlattenMembers(members, [])))
    {
      var toks := JsonText.Lex(decode, data);
      forall members
        ensures JsonText.IsObjectText(decode, data, members) <==> LexedMembers(toks) == Some(members)
      {
        LexedObject(decode, data, toks, members);
      }
      if toks.None? {
        return false, None;
      }
      ok, r := MatchFirstTokens(toks.value);
    }

    /** Walks the trie once, skipping what cannot contain a better rule. */
    method BestOf(spans: seq<Span>, view: View, ghost event: Rules.Event) returns (r: Option<T>)
      requires Valid() && Sees(view, tab.Numbers()) && Reads(w, spans, event, tab.trie.known.paths)
      ensures r == First(Matches(w, entries, event))
    {
      var sc := new Scratch(w, spans, view, true);
      sc.Visit(tab.trie.states, 0, tab.trie.links, tab.trie.edgeSeq);
      BestIsFirst(w, tab.Numbers(), tab.trie.states, tab.trie.links, tab.trie.known, nums, entries, spans, view, event,
                  sc.best);
      return if sc.best.None? then None else Some(tab.ids[sc.best.value]);
    }
  
    /** RemoveRule reports whether the identifier was present. */
    method RemoveRule(id: T) returns (ok: bool)
      requires Valid()
      modifies this, tab
      ensures Valid() && (tab == old(tab) || (fresh(tab) && fresh(tab.trie)))
      ensures ok <==> Find(old(entries), id).Some?
      ensures entries == Removed(old(entries), id)
      ensures tab != old(tab) <==> ok && 4 * (old(removed) + 1) >= |old(tab.ids)|
    {
      FindNumbered(tab.Numbers(), nums, entries, id);
      if id !in nums {
        return false;
      }
      ghost var i := Find(entries, id).value;
      RemovedStep(w, tab.Numbers(), tab.trie.states, tab.trie.links, tab.trie.known, nums, entries, i);
      tab.removed := tab.removed + {nums[id]};
      nums := nums - {id};
      count := count - 1;
      removed := removed + 1;
      entries := Without(entries, i);
      CompactIfDue();
      ok := true;
    }

    /** ReplaceRule: like AddRule for a new identifier; otherwise a new number takes over. */
    method ReplaceRule(id: T, rule: Rules.ConditionSet) returns (ok: bool)
      requires Valid()
      modifies this, tab, tab.trie
      ensures Valid() && (tab == old(tab) || (fresh(tab) && fresh(tab.trie)))
      ensures ok <==> ValidRules.ValidRule(w, rule)
      ensures entries == if ok then Replaced(old(entries), id, rule) else old(entries)
      ensures tab != old(tab) <==> ok && Find(old(entries), id).Some? && 4 * (old(removed) + 1) >= |old(tab.ids)| + 1
    {
      var sets := NormalizeLoops.Rule(w, rule);
      ValidRules.RuleAccepted(w, rule);
      if sets.None? {
        return false;
      }
      RuleGood(w, rule);
      ok := true;
      FindNumbered(tab.Numbers(), nums, entries, id);
      if id !in nums {
        AddFirst(id, rule, sets.value);
        return;
      }
      TakeOver(Find(entries, id).value, id, rule, sets.value);
      CompactIfDue();
    }

    /** The new rule of a present identifier gets a number of its own, with the order key of the old one. */
    method TakeOver(ghost i: nat, id: T, rule: Rules.ConditionSet, sets: seq<seq<NCond>>)
      requires Core() && i < |entries| && entries[i].id == id && id in nums
      requires NormalizeRule(w, rule) == Some(sets) && GoodSets(w, sets)
      modifies this, tab, tab.trie
      ensures Core() && tab == old(tab) && removed == old(removed) + 1 && |tab.ids| == |old(tab.ids)| + 1
      ensures entries == old(entries)[i := Entry(id, [rule])]
    {
      ghost var nb, states, links, known := tab.Numbers(), tab.trie.states, tab.trie.links, tab.trie.known;
      assert IsNumbered(nb, nums, entries[i]);
      var num, old_ := |tab.ids|, nums[id];
      var from, order, v := FromOf(tab.meta, old_), OrderIn(tab.meta, old_), tab.version + 1;
      AddReplacement(num, id, sets, v, order);
      Retire(nb, states, links, known, i, id, old_, num, from, v, order, rule, sets);
    }

    /** The old rule is visible until version v, which is published now. */
    method Retire(ghost nb: Numbering<T>, ghost states: States, ghost links: Links, ghost known: Paths.Index,
                  ghost i: nat,
                  id: T, old_: nat, num: nat, from: nat, v: nat, order: nat, ghost rule: Rules.ConditionSet,
                  ghost sets: seq<seq<NCond>>)
      requires Good(w, nb, states, links, known, nums, entries) && NormalizeRule(w, rule) == Some(sets)
      requires i < |entries| && entries[i].id == id && id in nums && nums[id] == old_ && num == |nb.ids|
      requires from == FromOf(nb.meta, old_) && order == OrderIn(nb.meta, old_) && v == nb.version + 1
      requires tab.Numbers() == nb.(ids := nb.ids + [id], meta := nb.meta[|nb.ids| := Meta(v, 0, order)])
      requires tab.trie.Valid(w)
      requires Grown(w, states, links, tab.trie.states, tab.trie.links, tab.trie.known, |nb.ids|, sets, tab.meta,
                     |nb.ids| + 1)
      requires removed + |entries| == |nb.ids| && count == |entries|
      modifies `nums, `removed, `entries, tab`meta, tab`version
      ensures Core() && removed == old(removed) + 1 && |tab.ids| == |nb.ids| + 1
      ensures entries == old(entries)[i := Entry(id, [rule])]
    {
      ghost var meta, nums0, entries0 := tab.meta, nums, entries;
      tab.meta := tab.meta[old_ := Meta(from, v, order)];
      tab.version := v;
      nums := nums[id := num];
      removed := removed + 1;
      entries := entries[i := Entry(id, [rule])];
      RetiredStep(w, nb, states, links, known, tab.trie.states, tab.trie.links, tab.trie.known, nums0, entries0, i,
                  rule, meta,
                  tab.Numbers(), nums, entries);
    }

    /** The new rule, visible from version v on, is in place before the old one ends and v is published. */
    method AddReplacement(num: nat, id: T, sets: seq<seq<NCond>>, v: nat, order: nat)
      requires Core() && num == |tab.ids| && GoodSets(w, sets)
      modifies tab`meta, tab`ids, tab.trie
      ensures tab.meta == old(tab.meta)[num := Meta(v, 0, order)] && tab.ids == old(tab.ids) + [id]
      ensures tab.trie.Valid(w)
      ensures Grown(w, old(tab.trie.states), old(tab.trie.links), tab.trie.states, tab.trie.links, tab.trie.known,
                    num, sets, tab.meta, num + 1)
    {
      ghost var nb := tab.Numbers();
      tab.meta := tab.meta[num := Meta(v, 0, order)];
      ReplacementReady(nb, tab.trie.states, tab.trie.links, tab.meta);
      tab.ids := tab.ids + [id];
      AddSets(tab.trie, w, sets, num, order, |sets| == 1, tab.meta, num + 1);
    }

    method CompactIfDue()
      requires Core() && |tab.ids| > 0
      modifies this
      ensures Valid() && entries == old(entries) && (tab == old(tab) || (fresh(tab) && fresh(tab.trie)))
      ensures tab != old(tab) <==> 4 * old(removed) >= |old(tab.ids)|
    {
      if removed * 4 >= |tab.ids| {
        Compact();
      }
    }

    /** compact: replaces the table with a copy that contains only the present rules. */
    method Compact()
      requires Core()
      modifies this
      ensures Valid() && removed == 0 && entries == old(entries) && fresh(tab) && fresh(tab.trie)
    {
      var live := LiveInOrder(tab.ids, tab.removed, tab.version, tab.meta, tab.Numbers(), nums, entries);
      var ids, nums', renum := RenumberAll(tab.ids, nums, live, tab.Numbers(), entries);
      InjectiveRenumbers(renum, live[..|live|]);
      var copy := Compaction.CopyRules(w, tab.trie.states, renum, tab.trie.links, tab.trie.edgeSeq);
      CompactedStep(w, tab.Numbers(), tab.trie.states, tab.trie.links, tab.trie.known, nums, entries, live, ids, nums',
                    renum,
                    copy.states, copy.links, copy.known);
      tab := new Table(ids, copy);
      nums, removed := nums', 0;
    }
  }

  lemma {:induction false} InjectiveRenumbers(renum: map<nat, nat>, live: seq<nat>)
    requires Renumbers(renum, live)
    ensures Compaction.Injective(renum)
  {
    forall a, b | a in renum && b in renum && renum[a] == renum[b] ensures a == b {
      assert live[renum[a]] == a && live[renum[b]] == b;
    }
  }
}
