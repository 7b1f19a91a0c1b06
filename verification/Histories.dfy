/** Histories of calls, and what a match returns after any of them. */
module Histories {
  import opened ByteStrings
  import opened Semantics
  import opened RuleTables
  import opened HyperMatches
  import Probing
  import Rules
  import ValidRules

  datatype Call<T> =
    | AddRule(id: T, rule: Rules.ConditionSet)
    | ReplaceRule(id: T, rule: Rules.ConditionSet)
    | RemoveRule(id: T)

  /** A call with an invalid rule returns an error and has no effect. */
  ghost predicate Effective<T>(w: World, c: Call<T>) {
    c.RemoveRule? || ValidRules.ValidRule(w, c.rule)
  }

  // --------------------------------------------------- seen from one identifier

  /** The alternative rules of id after the calls, or None if it is not present. */
  ghost function RulesAfter<T>(w: World, calls: seq<Call<T>>, id: T): Option<seq<Rules.ConditionSet>> {
    if calls == [] then None
    else
      var before, c := RulesAfter(w, calls[..|calls| - 1], id), calls[|calls| - 1];
      if c.id != id || !Effective(w, c) then before
      else
        match c
        case AddRule(_, rule) => Some((if before.Some? then before.value else []) + [rule])
        case ReplaceRule(_, rule) => Some([rule])
        case RemoveRule(_) => None
  }

  /** When id was added: the position of the call since which it has been present. */
  ghost function Since<T>(w: World, calls: seq<Call<T>>, id: T): (i: nat)
    requires RulesAfter(w, calls, id).Some?
    ensures i < |calls|
  {
    var before := calls[..|calls| - 1];
    if RulesAfter(w, before, id).Some? then Since(w, before, id) else |calls| - 1
  }

  ghost predicate Earlier<T>(w: World, calls: seq<Call<T>>, a: T, b: T) {
    && RulesAfter(w, calls, a).Some? && RulesAfter(w, calls, b).Some?
    && Since(w, calls, a) < Since(w, calls, b)
  }

  ghost predicate HoldsAfter<T>(w: World, calls: seq<Call<T>>, id: T, event: Rules.Event) {
    RulesAfter(w, calls, id).Some? && exists r :: r in RulesAfter(w, calls, id).value && Rules.RuleHolds(w, r, event)
  }

  ghost predicate InOrder<T>(w: World, calls: seq<Call<T>>, r: seq<T>) {
    forall i, j :: 0 <= i < j < |r| ==> Earlier(w, calls, r[i], r[j])
  }

  /** The identifiers with a rule that holds, each once, in the order of addition. */
  ghost predicate IsResult<T(!new)>(w: World, calls: seq<Call<T>>, event: Rules.Event, r: seq<T>) {
    && (forall id :: id in r <==> HoldsAfter(w, calls, id, event))
    && InOrder(w, calls, r)
  }

  // ------------------------------------------------------- the stored entries

  ghost function Step<T>(w: World, entries: seq<Entry<T>>, c: Call<T>): seq<Entry<T>> {
    if !Effective(w, c) then entries
    else
      match c
      case AddRule(id, rule) => Added(entries, id, rule)
      case ReplaceRule(id, rule) => Replaced(entries, id, rule)
      case RemoveRule(id) => Removed(entries, id)
  }

  ghost function After<T>(w: World, calls: seq<Call<T>>): seq<Entry<T>> {
    if calls == [] then [] else Step(w, After(w, calls[..|calls| - 1]), calls[|calls| - 1])
  }

  ghost predicate IsStored<T>(w: World, calls: seq<Call<T>>, e: Entry<T>) {
    RulesAfter(w, calls, e.id) == Some(e.rules)
  }

  ghost predicate HasEntry<T>(entries: seq<Entry<T>>, id: T) {
    exists i :: 0 <= i < |entries| && entries[i].id == id
  }

  /** The entries are what each identifier has, in the order of addition. */
  ghost predicate Records<T(!new)>(w: World, calls: seq<Call<T>>, entries: seq<Entry<T>>) {
    && (forall i :: 0 <= i < |entries| ==> IsStored(w, calls, entries[i]))
    && (forall id :: RulesAfter(w, calls, id).Some? ==> HasEntry(entries, id))
    && (forall i, j :: 0 <= i < j < |entries| ==> Earlier(w, calls, entries[i].id, entries[j].id))
  }

  /** An identifier that stays present keeps its place in the order. */
  lemma {:induction false} SincePast<T>(w: World, calls: seq<Call<T>>, c: Call<T>, id: T)
    ensures RulesAfter(w, calls, id).Some? && RulesAfter(w, calls + [c], id).Some? ==>
      Since(w, calls + [c], id) == Since(w, calls, id)
    ensures RulesAfter(w, calls, id).None? && RulesAfter(w, calls + [c], id).Some? ==>
      Since(w, calls + [c], id) == |calls| && c.id == id
    ensures c.id != id || !Effective(w, c) ==> RulesAfter(w, calls + [c], id) == RulesAfter(w, calls, id)
  {
    var more := calls + [c];
    assert more[..|more| - 1] == calls && more[|more| - 1] == c;
  }

  lemma {:induction false} EarlierPast<T>(w: World, calls: seq<Call<T>>, c: Call<T>, a: T, b: T)
    requires Earlier(w, calls, a, b)
    requires RulesAfter(w, calls + [c], a).Some? && RulesAfter(w, calls + [c], b).Some?
    ensures Earlier(w, calls + [c], a, b)
  {
    SincePast(w, calls, c, a);
    SincePast(w, calls, c, b);
  }

  lemma {:induction false} UnchangedRecords<T(!new)>(w: World, calls: seq<Call<T>>, entries: seq<Entry<T>>, c: Call<T>)
    requires Records(w, calls, entries)
    requires RulesAfter(w, calls + [c], c.id) == RulesAfter(w, calls, c.id)
    ensures Records(w, calls + [c], entries)
  {
    forall id ensures RulesAfter(w, calls + [c], id) == RulesAfter(w, calls, id) {
      SincePast(w, calls, c, id);
    }
    forall i | 0 <= i < |entries| ensures IsStored(w, calls + [c], entries[i]) {
      assert IsStored(w, calls, entries[i]);
    }
    forall i, j | 0 <= i < j < |entries| ensures Earlier(w, calls + [c], entries[i].id, entries[j].id) {
      EarlierPast(w, calls, c, entries[i].id, entries[j].id);
    }
  }

  lemma {:induction false} AppendedRecords<T(!new)>(w: World, calls: seq<Call<T>>, entries: seq<Entry<T>>, c: Call<T>,
                                                    e: Entry<T>)
    requires Records(w, calls, entries) && e.id == c.id && !HasEntry(entries, c.id)
    requires IsStored(w, calls + [c], e)
    ensures Records(w, calls + [c], entries + [e])
  {
    var es := entries + [e];
    assert RulesAfter(w, calls, c.id).None?;
    forall id ensures id != c.id ==> RulesAfter(w, calls + [c], id) == RulesAfter(w, calls, id) {
      SincePast(w, calls, c, id);
    }
    forall i | 0 <= i < |entries| ensures entries[i].id != c.id && IsStored(w, calls + [c], entries[i]) {
      assert IsStored(w, calls, entries[i]);
    }
    forall id | RulesAfter(w, calls + [c], id).Some? ensures HasEntry(es, id) {
      if id != c.id {
        var i :| 0 <= i < |entries| && entries[i].id == id;
        assert es[i].id == id;
      } else {
        assert es[|entries|].id == id;
      }
    }
    forall i, j | 0 <= i < j < |es| ensures Earlier(w, calls + [c], es[i].id, es[j].id) {
      if j < |entries| {
        EarlierPast(w, calls, c, entries[i].id, entries[j].id);
      } else {
        SincePast(w, calls, c, es[i].id);
        SincePast(w, calls, c, c.id);
        assert IsStored(w, calls, entries[i]);
      }
    }
  }

  lemma {:induction false} UpdatedRecords<T(!new)>(w: World, calls: seq<Call<T>>, entries: seq<Entry<T>>, c: Call<T>,
                                                   i: nat, e: Entry<T>)
    requires Records(w, calls, entries) && i < |entries| && entries[i].id == e.id == c.id
    requires IsStored(w, calls + [c], e)
    ensures Records(w, calls + [c], entries[i := e])
  {
    var es := entries[i := e];
    forall id ensures id != c.id ==> RulesAfter(w, calls + [c], id) == RulesAfter(w, calls, id) {
      SincePast(w, calls, c, id);
    }
    DistinctRecords(w, calls, entries);
    forall k | 0 <= k < |es| ensures IsStored(w, calls + [c], es[k]) {
      assert k != i ==> IsStored(w, calls, entries[k]);
    }
    forall id | RulesAfter(w, calls + [c], id).Some? ensures HasEntry(es, id) {
      if id != c.id {
        var k :| 0 <= k < |entries| && entries[k].id == id;
        assert es[k].id == id;
      } else {
        assert es[i].id == id;
      }
    }
    forall k, l | 0 <= k < l < |es| ensures Earlier(w, calls + [c], es[k].id, es[l].id) {
      assert IsStored(w, calls + [c], es[k]) && IsStored(w, calls + [c], es[l]);
      assert es[k].id == entries[k].id && es[l].id == entries[l].id;
      EarlierPast(w, calls, c, entries[k].id, entries[l].id);
    }
  }

  lemma {:induction false} DistinctRecords<T(!new)>(w: World, calls: seq<Call<T>>, entries: seq<Entry<T>>)
    requires Records(w, calls, entries)
    ensures forall i, j :: 0 <= i < |entries| && 0 <= j < |entries| && i != j ==> entries[i].id != entries[j].id
  {
    forall i, j | 0 <= i < |entries| && 0 <= j < |entries| && i != j ensures entries[i].id != entries[j].id {
      assert Earlier(w, calls, entries[if i < j then i else j].id, entries[if i < j then j else i].id);
    }
  }

  lemma {:induction false} RemovedRecords<T(!new)>(w: World, calls: seq<Call<T>>, entries: seq<Entry<T>>, c: Call<T>,
                                                   i: nat)
    requires Records(w, calls, entries) && i < |entries| && entries[i].id == c.id
    requires RulesAfter(w, calls + [c], c.id).None?
    ensures Records(w, calls + [c], Without(entries, i))
  {
    var es := Without(entries, i);
    forall id ensures id != c.id ==> RulesAfter(w, calls + [c], id) == RulesAfter(w, calls, id) {
      SincePast(w, calls, c, id);
    }
    DistinctRecords(w, calls, entries);
    assert forall k :: 0 <= k < |es| ==> es[k] == entries[if k < i then k else k + 1];
    forall k | 0 <= k < |es| ensures es[k].id != c.id && IsStored(w, calls + [c], es[k]) {
      assert IsStored(w, calls, entries[if k < i then k else k + 1]);
    }
    forall id | RulesAfter(w, calls + [c], id).Some? ensures HasEntry(es, id) {
      var k :| 0 <= k < |entries| && entries[k].id == id;
      assert es[if k < i then k else k - 1].id == id;
    }
    forall k, l | 0 <= k < l < |es| ensures Earlier(w, calls + [c], es[k].id, es[l].id) {
      assert IsStored(w, calls + [c], es[k]) && IsStored(w, calls + [c], es[l]);
      EarlierPast(w, calls, c, es[k].id, es[l].id);
    }
  }

  lemma {:induction false} StepRecords<T(!new)>(w: World, calls: seq<Call<T>>, entries: seq<Entry<T>>, c: Call<T>)
    requires Records(w, calls, entries)
    ensures Records(w, calls + [c], Step(w, entries, c))
  {
    var more, i := calls + [c], Find(entries, c.id);
    assert more[..|more| - 1] == calls && more[|more| - 1] == c;
    if i.Some? {
      assert IsStored(w, calls, entries[i.value]);
    } else {
      assert !HasEntry(entries, c.id);
    }
    if !Effective(w, c) || (c.RemoveRule? && i.None?) {
      UnchangedRecords(w, calls, entries, c);
    } else if c.RemoveRule? {
      RemovedRecords(w, calls, entries, c, i.value);
    } else if i.None? {
      assert RulesAfter(w, calls, c.id).None? && [] + [c.rule] == [c.rule];
      AppendedRecords(w, calls, entries, c, Entry(c.id, [c.rule]));
    } else {
      UpdatedRecords(w, calls, entries, c, i.value, Entry(c.id, RulesAfter(w, more, c.id).value));
    }
  }

  /** After any history, the entries are what each identifier has, in the order of addition. */
  lemma {:induction false} AfterRecords<T(!new)>(w: World, calls: seq<Call<T>>)
    ensures Records(w, calls, After(w, calls))
  {
    if calls != [] {
      var before := calls[..|calls| - 1];
      AfterRecords(w, before);
      StepRecords(w, before, After(w, before), calls[|calls| - 1]);
      assert before + [calls[|calls| - 1]] == calls;
    }
  }

  // -------------------------------------------------------------- the result

  lemma {:induction false} MatchesMembers<T>(w: World, entries: seq<Entry<T>>, event: Rules.Event, id: T)
    ensures id in Matches(w, entries, event) <==>
            exists i :: 0 <= i < |entries| && entries[i].id == id && EntryHolds(w, entries[i], event)
  {
    if entries != [] {
      var n := |entries| - 1;
      MatchesMembers(w, entries[..n], event, id);
      assert forall i :: 0 <= i < n ==> entries[..n][i] == entries[i];
    }
  }

  ghost predicate AllEarlier<T>(w: World, calls: seq<Call<T>>, r: seq<T>, id: T) {
    forall i :: 0 <= i < |r| ==> Earlier(w, calls, r[i], id)
  }

  lemma {:induction false} OrderSnoc<T>(w: World, calls: seq<Call<T>>, r: seq<T>, id: T)
    requires InOrder(w, calls, r) && AllEarlier(w, calls, r, id)
    ensures InOrder(w, calls, r + [id])
  {
    var more := r + [id];
    forall i, j | 0 <= i < j < |more| ensures Earlier(w, calls, more[i], more[j]) {
      if j < |r| {
        assert more[i] == r[i] && more[j] == r[j];
      } else {
        assert more[i] == r[i] && more[j] == id;
      }
    }
  }

  /** What matches among the first entries was added before the last one. */
  lemma {:induction false} MatchedBefore<T>(w: World, calls: seq<Call<T>>, entries: seq<Entry<T>>, event: Rules.Event,
                                            id: T)
    requires forall i :: 0 <= i < |entries| ==> Earlier(w, calls, entries[i].id, id)
    ensures AllEarlier(w, calls, Matches(w, entries, event), id)
  {
    var r := Matches(w, entries, event);
    forall i | 0 <= i < |r| ensures Earlier(w, calls, r[i], id) {
      MatchesMembers(w, entries, event, r[i]);
      var k :| 0 <= k < |entries| && entries[k].id == r[i];
    }
  }

  lemma {:induction false} MatchesOrder<T>(w: World, calls: seq<Call<T>>, entries: seq<Entry<T>>, event: Rules.Event)
    requires forall i, j :: 0 <= i < j < |entries| ==> Earlier(w, calls, entries[i].id, entries[j].id)
    ensures InOrder(w, calls, Matches(w, entries, event))
  {
    if entries != [] {
      var init, last := entries[..|entries| - 1], entries[|entries| - 1];
      MatchesOrder(w, calls, init, event);
      if EntryHolds(w, last, event) {
        MatchedBefore(w, calls, init, event, last.id);
        OrderSnoc(w, calls, Matches(w, init, event), last.id);
      }
    }
  }

  /** The result after any history, said for each identifier on its own. */
  lemma {:induction false} MatchesIsResult<T(!new)>(w: World, calls: seq<Call<T>>, event: Rules.Event)
    ensures IsResult(w, calls, event, Matches(w, After(w, calls), event))
  {
    var entries := After(w, calls);
    AfterRecords(w, calls);
    MatchesOrder(w, calls, entries, event);
    forall id ensures id in Matches(w, entries, event) <==> HoldsAfter(w, calls, id, event) {
      MatchesMembers(w, entries, event, id);
      if HoldsAfter(w, calls, id, event) {
        var i :| 0 <= i < |entries| && entries[i].id == id;
        assert IsStored(w, calls, entries[i]);
      }
      if id in Matches(w, entries, event) {
        var i :| 0 <= i < |entries| && entries[i].id == id && EntryHolds(w, entries[i], event);
        assert IsStored(w, calls, entries[i]);
      }
    }
  }

  // ---------------------------------------------------------------- any user

  method PerformAdd<T(==,!new)>(h: HyperMatch<T>, id: T, rule: Rules.ConditionSet)
    requires h.Valid()
    modifies h, h.tab, h.tab.trie
    ensures h.Valid() && h.tab == old(h.tab) && h.entries == Step(h.w, old(h.entries), AddRule(id, rule))
  {
    var ok := h.AddRule(id, rule);
  }

  method PerformReplace<T(==,!new)>(h: HyperMatch<T>, id: T, rule: Rules.ConditionSet)
    requires h.Valid()
    modifies h, h.tab, h.tab.trie
    ensures h.Valid() && (h.tab == old(h.tab) || (fresh(h.tab) && fresh(h.tab.trie)))
    ensures h.entries == Step(h.w, old(h.entries), ReplaceRule(id, rule))
  {
    var ok := h.ReplaceRule(id, rule);
  }

  method PerformRemove<T(==,!new)>(h: HyperMatch<T>, id: T)
    requires h.Valid()
    modifies h, h.tab, h.tab.trie
    ensures h.Valid() && (h.tab == old(h.tab) || (fresh(h.tab) && fresh(h.tab.trie)))
    ensures h.entries == Step(h.w, old(h.entries), RemoveRule(id))
  {
    var ok := h.RemoveRule(id);
  }

  method Perform<T(==,!new)>(h: HyperMatch<T>, c: Call<T>)
    requires h.Valid()
    modifies h, h.tab, h.tab.trie
    ensures h.Valid() && (h.tab == old(h.tab) || (fresh(h.tab) && fresh(h.tab.trie)))
    ensures h.entries == Step(h.w, old(h.entries), c)
  {
    match c {
      case AddRule(id, rule) => PerformAdd(h, id, rule);
      case ReplaceRule(id, rule) => PerformReplace(h, id, rule);
      case RemoveRule(id) => PerformRemove(h, id);
    }
  }

  lemma {:induction false} AfterNext<T>(w: World, calls: seq<Call<T>>, k: nat)
    requires k < |calls|
    ensures After(w, calls[..k + 1]) == Step(w, After(w, calls[..k]), calls[k])
  {
    var more := calls[..k + 1];
    assert more[..|more| - 1] == calls[..k];
  }

  /** Whatever is called before, Match and MatchFirst return what the calls and the naive evaluation say. */
  method Replay<T(==,!new)>(w: World, hash: Probing.Hash, calls: seq<Call<T>>, event: Rules.Event)
    returns (r: seq<T>, first: Option<T>)
    requires w.Lawful()
    ensures IsResult(w, calls, event, r) && first == First(r)
  {
    var h := new HyperMatch<T>(w, hash);
    for k := 0 to |calls|
      invariant h.Valid() && h.w == w && fresh(h) && fresh(h.tab) && fresh(h.tab.trie)
      invariant h.entries == After(w, calls[..k])
    {
      AfterNext(w, calls, k);
      Perform(h, calls[k]);
    }
    TakeAll(calls);
    MatchesIsResult(w, calls, event);
    r := h.Match(event);
    first := h.MatchFirst(event);
  }
}
