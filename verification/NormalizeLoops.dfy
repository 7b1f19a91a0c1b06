/** The loops of normalizeConditions and normalizeSets (normalize.go), which compute the functions of Normalize. */
module NormalizeLoops {
  import opened ByteStrings
  import opened Sorting
  import opened Expressions
  import opened Semantics
  import opened Normalize
  import Rules

  /** What was found so far, and then what is still to come, if that is valid. */
  function Then<T>(first: seq<T>, rest: Option<seq<T>>): Option<seq<T>> {
    match rest
    case None => None
    case Some(s) => Some(first + s)
  }

  lemma {:induction false} ThenThen<T>(a: seq<T>, b: seq<T>, rest: Option<seq<T>>)
    ensures Then([], rest) == rest && Then(a, Then(b, rest)) == Then(a + b, rest) && Then(a, Some([])) == Some(a)
  {
    if rest.Some? {
      assert [] + rest.value == rest.value && a + (b + rest.value) == a + b + rest.value;
    }
    assert a + [] == a;
  }

  // ----------------------------------------------------- normalizeConditions

  method NormalizeAll(w: World, cs: seq<Rules.Condition>) returns (r: Option<seq<NCond>>)
    ensures r == NormalizeEach(w, cs)
  {
    var conds: seq<NCond> := [];
    ThenThen([], [], NormalizeEach(w, cs));
    for i := 0 to |cs|
      invariant NormalizeEach(w, cs) == Then(conds, NormalizeEach(w, cs[i..]))
    {
      assert cs[i..][1..] == cs[i + 1..];
      var c := NormalizeCondition(w, cs[i]);
      if c.None? {
        return None;
      }
      ThenThen(conds, [c.value], NormalizeEach(w, cs[i + 1..]));
      conds := conds + [c.value];
    }
    ThenThen(conds, [], None);
    return Some(conds);
  }

  /** The end of the conditions with the path of condition i. */
  method RunEnd(conds: seq<NCond>, i: nat) returns (j: nat)
    requires i < |conds|
    ensures j == i + RunLength(conds[i..])
  {
    j := i + 1;
    while j < |conds| && conds[j].path == conds[i].path
      invariant i < j <= |conds| && forall k :: i <= k < j ==> conds[k].path == conds[i].path
    {
      j := j + 1;
    }
    RunLengthIs(conds[i..], j - i);
  }

  lemma {:induction false} RunLengthIs(conds: seq<NCond>, n: nat)
    requires 1 <= n <= |conds| && (forall k :: 0 <= k < n ==> conds[k].path == conds[0].path)
    requires n < |conds| ==> conds[n].path != conds[0].path
    ensures RunLength(conds) == n
  {
  }

  /** The loop that merges the conditions on the same path. */
  method MergeAll(conds: seq<NCond>) returns (r: Option<seq<NCond>>)
    ensures r == Merge(conds)
  {
    var merged: seq<NCond> := [];
    var i := 0;
    ThenThen([], [], Merge(conds));
    assert conds[0..] == conds;
    while i < |conds|
      invariant i <= |conds| && Merge(conds) == Then(merged, Merge(conds[i..]))
    {
      var j := RunEnd(conds, i);
      assert conds[i..][..j - i] == conds[i..j] && conds[i..][j - i..] == conds[j..];
      var c := MergeRun(conds[i..j]);
      if c.None? {
        return None;
      }
      ThenThen(merged, [c.value], Merge(conds[j..]));
      merged := merged + [c.value];
      i := j;
    }
    ThenThen(merged, [], None);
    return Some(merged);
  }

  method Conditions(w: World, cs: seq<Rules.Condition>) returns (r: Option<seq<NCond>>)
    ensures r == NormalizeConditions(w, cs)
  {
    var conds := NormalizeAll(w, cs);
    if conds.None? {
      return None;
    }
    r := MergeAll(Sort(PathLeq, conds.value));
  }

  // ---------------------------------------------------------- normalizeSets

  /** The only condition with alternatives, |cs| if there is none, or None if there are several. */
  method FindAlternatives(cs: seq<Rules.Condition>) returns (or: Option<nat>)
    ensures or == if FindOr(cs, 0) < |cs| && FindOr(cs, FindOr(cs, 0) + 1) < |cs| then None else Some(FindOr(cs, 0))
  {
    var at := |cs|;
    for i := 0 to |cs|
      invariant at <= |cs| && (at == |cs| ==> FindOr(cs, 0) == FindOr(cs, i))
      invariant at < |cs| ==> at == FindOr(cs, 0) && at < i && FindOr(cs, at + 1) == FindOr(cs, i)
    {
      assert FindOr(cs, i) == if cs[i].or.Or? then i else FindOr(cs, i + 1);
      if cs[i].or.Or? {
        if at < |cs| {
          return None;
        }
        at := i;
      }
    }
    return Some(at);
  }

  /** Appends the condition sets of cs to dst. */
  method Sets(w: World, dst: seq<seq<NCond>>, cs: seq<Rules.Condition>, depth: nat) returns (r: Option<seq<seq<NCond>>>)
    requires depth <= MAX_OR_DEPTH
    ensures r == Then(dst, NormalizeSets(w, |dst|, cs, depth))
    decreases MAX_OR_DEPTH - depth
  {
    if |cs| == 0 {
      return None;
    }
    var or := FindAlternatives(cs);
    if or.None? {
      return None;
    }
    if or.value == |cs| {
      var conds := Conditions(w, cs);
      return if conds.None? then None else Some(dst + [conds.value]);
    }
    var c := cs[or.value];
    if c.or.sets == [] || c.path != [] || c.pattern != NO_PATTERN || depth >= MAX_OR_DEPTH {
      return None;
    }
    r := Alternatives(w, dst, c.or.sets, cs[..or.value] + cs[or.value + 1..], depth);
  }

  /** What one more alternative adds to the sets found so far. */
  lemma {:induction false} AlternativesNext(w: World, sets: seq<seq<NCond>>, alternatives: seq<Rules.ConditionSet>,
                                            i: nat, plain: seq<Rules.Condition>, depth: nat)
    requires depth < MAX_OR_DEPTH && i < |alternatives|
    ensures var more := Then(sets, NormalizeSets(w, |sets|, alternatives[i].conds + plain, depth + 1));
            Then(sets, NormalizeAlternatives(w, |sets|, alternatives[i..], plain, depth)) ==
            if more.None? || |more.value| > MAX_CONDITION_SETS then None
            else Then(more.value, NormalizeAlternatives(w, |more.value|, alternatives[i + 1..], plain, depth))
  {
    var first := NormalizeSets(w, |sets|, alternatives[i].conds + plain, depth + 1);
    assert alternatives[i..][1..] == alternatives[i + 1..];
    AlternativesParts(w, |sets|, alternatives[i..], plain, depth);
    if first.Some? {
      ThenThen(sets, first.value,
               NormalizeAlternatives(w, |sets| + |first.value|, alternatives[i + 1..], plain, depth));
    }
  }

  /** The loop over the alternatives. */
  method Alternatives(w: World, dst: seq<seq<NCond>>, alternatives: seq<Rules.ConditionSet>,
                      plain: seq<Rules.Condition>, depth: nat)
    returns (r: Option<seq<seq<NCond>>>)
    requires depth < MAX_OR_DEPTH && alternatives != []
    ensures r == Then(dst, NormalizeAlternatives(w, |dst|, alternatives, plain, depth))
    decreases MAX_OR_DEPTH - depth, 0
  {
    var sets := dst;
    assert alternatives[0..] == alternatives;
    for i := 0 to |alternatives|
      invariant Then(dst, NormalizeAlternatives(w, |dst|, alternatives, plain, depth)) ==
                Then(sets, NormalizeAlternatives(w, |sets|, alternatives[i..], plain, depth))
    {
      AlternativesNext(w, sets, alternatives, i, plain, depth);
      var more := Sets(w, sets, alternatives[i].conds + plain, depth + 1);
      if more.None? || |more.value| > MAX_CONDITION_SETS {
        return None;
      }
      sets := more.value;
    }
    ThenThen(sets, [], None);
    return Some(sets);
  }

  /** normalizeRule */
  method Rule(w: World, rule: Rules.ConditionSet) returns (r: Option<seq<seq<NCond>>>)
    ensures r == NormalizeRule(w, rule)
  {
    r := Sets(w, [], rule.conds, 0);
    ThenThen([], [], NormalizeRule(w, rule));
  }
}
