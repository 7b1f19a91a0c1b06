/** The values of one event, grouped by path (reset and addWild in engine.go). */
module SpanTables {
  import opened ByteStrings
  import opened Probing
  import opened SpanIndex
  import opened Semantics
  import opened Walks
  import opened Results
  import Paths
  import Rules

  // ---------------------------------------------------------------- chains

  ghost predicate InChain(props: seq<Prop>, chain: seq<nat>, k: nat)
    requires k < |chain|
  {
    && chain[k] < |props|
    && (k + 1 < |chain| ==> chain[k] < chain[k + 1] && props[chain[k]].next == Some(chain[k + 1]))
    && (k + 1 == |chain| ==> props[chain[k]].next == None)
  }

  /** The properties of the span are those in chain, linked in this order. */
  ghost predicate GoodChain(props: seq<Prop>, span: ChainedSpan, chain: seq<nat>) {
    && (chain == [] ==> span.first.None?)
    && (chain != [] ==> span.first == Some(chain[0]) && span.last == chain[|chain| - 1])
    && forall k :: 0 <= k < |chain| ==> InChain(props, chain, k)
  }

  ghost predicate Chained(props: seq<Prop>, spans: seq<ChainedSpan>, chains: seq<seq<nat>>) {
    && |chains| == |spans|
    && (forall s :: 0 <= s < |spans| ==> GoodChain(props, spans[s], chains[s]))
    && (forall s, t :: 0 <= s < t < |chains| ==> Disjoint(chains[s], chains[t]))
  }

  ghost predicate Disjoint(a: seq<nat>, b: seq<nat>) {
    forall x :: x in a ==> x !in b
  }

  ghost function ChainValues(props: seq<Prop>, chain: seq<nat>): seq<Bytes> {
    if chain == [] then []
    else
      var i := chain[|chain| - 1];
      ChainValues(props, chain[..|chain| - 1]) + if i < |props| then props[i].values else []
  }

  /** Changes of links do not change values. */
  lemma {:induction false} SameValues(props: seq<Prop>, props': seq<Prop>, chain: seq<nat>)
    requires |props| <= |props'| && forall k :: 0 <= k < |chain| ==> chain[k] < |props|
    requires forall i :: 0 <= i < |props| ==> props'[i].values == props[i].values
    ensures ChainValues(props', chain) == ChainValues(props, chain)
  {
    if chain != [] {
      SameValues(props, props', chain[..|chain| - 1]);
    }
  }

  /** The properties after one more, with the given values, was linked to the end of a span. */
  function Extend(props: seq<Prop>, span: ChainedSpan, values: seq<Bytes>): (props': seq<Prop>)
    requires span.first.Some? ==> span.last < |props|
    ensures |props'| == |props| + 1 && props'[|props|] == Prop(values, None)
    ensures forall i :: 0 <= i < |props| ==> props'[i].values == props[i].values
  {
    var more := props + [Prop(values, None)];
    if span.first.None? then more else more[span.last := more[span.last].(next := Some(|props|))]
  }

  function Extended(span: ChainedSpan, i: nat): ChainedSpan {
    if span.first.None? then span.(first := Some(i), last := i) else span.(last := i)
  }

  lemma {:induction false} ChainInProps(props: seq<Prop>, span: ChainedSpan, chain: seq<nat>)
    requires GoodChain(props, span, chain)
    ensures forall k :: 0 <= k < |chain| ==> chain[k] < |props|
    ensures span.first.Some? <==> chain != []
    ensures span.first.Some? ==> span.last < |props| && span.last == chain[|chain| - 1]
  {
    forall k | 0 <= k < |chain| ensures chain[k] < |props| {
      assert InChain(props, chain, k);
    }
  }

  lemma {:induction false} ExtendChain(props: seq<Prop>, span: ChainedSpan, chain: seq<nat>, values: seq<Bytes>)
    requires GoodChain(props, span, chain)
    ensures span.first.Some? ==> span.last < |props|
    ensures GoodChain(Extend(props, span, values), Extended(span, |props|), chain + [|props|])
  {
    ChainInProps(props, span, chain);
    var props', chain' := Extend(props, span, values), chain + [|props|];
    forall k | 0 <= k < |chain'| ensures InChain(props', chain', k) {
      ExtendLink(props, span, chain, values, k);
    }
  }

  lemma {:induction false} ExtendValues(props: seq<Prop>, span: ChainedSpan, chain: seq<nat>, values: seq<Bytes>)
    requires GoodChain(props, span, chain) && (span.first.Some? ==> span.last < |props|)
    ensures ChainValues(Extend(props, span, values), chain + [|props|]) == ChainValues(props, chain) + values
  {
    ChainInProps(props, span, chain);
    SameValues(props, Extend(props, span, values), chain);
    assert (chain + [|props|])[..|chain|] == chain;
  }

  lemma {:induction false} ExtendLink(props: seq<Prop>, span: ChainedSpan, chain: seq<nat>, values: seq<Bytes>, k: nat)
    requires GoodChain(props, span, chain) && k <= |chain| && (span.first.Some? ==> span.last < |props|)
    ensures InChain(Extend(props, span, values), chain + [|props|], k)
  {
    ChainInProps(props, span, chain);
    if k < |chain| {
      assert InChain(props, chain, k);
      if k + 1 < |chain| {
        ChainAscends(props, span, chain, k);
      }
    }
  }

  lemma {:induction false} ChainAscends(props: seq<Prop>, span: ChainedSpan, chain: seq<nat>, k: nat)
    requires GoodChain(props, span, chain) && k + 1 < |chain|
    ensures chain[k] < chain[|chain| - 1]
    decreases |chain| - k
  {
    assert InChain(props, chain, k);
    if k + 2 < |chain| {
      ChainAscends(props, span, chain, k + 1);
    }
  }

  lemma {:induction false} OtherChain(props: seq<Prop>, span: ChainedSpan, values: seq<Bytes>, other: ChainedSpan,
                                      chain: seq<nat>)
    requires GoodChain(props, other, chain) && (span.first.Some? ==> span.last < |props| && span.last !in chain)
    ensures GoodChain(Extend(props, span, values), other, chain)
    ensures ChainValues(Extend(props, span, values), chain) == ChainValues(props, chain)
    ensures |props| !in chain
  {
    var props' := Extend(props, span, values);
    ChainInProps(props, other, chain);
    forall k | 0 <= k < |chain| ensures InChain(props', chain, k) {
      assert InChain(props, chain, k) && chain[k] in chain;
    }
    SameValues(props, props', chain);
  }

  /** The values of one property were added to span s; all other spans are as before. */
  lemma {:induction false} LinkChained(props: seq<Prop>, spans: seq<ChainedSpan>, chains: seq<seq<nat>>, s: nat,
                                       values: seq<Bytes>)
    requires Chained(props, spans, chains) && s < |spans|
    ensures spans[s].first.Some? ==> spans[s].last < |props|
    ensures var props', chains' := Extend(props, spans[s], values), chains[s := chains[s] + [|props|]];
            && Chained(props', spans[s := Extended(spans[s], |props|)], chains')
            && ChainValues(props', chains'[s]) == ChainValues(props, chains[s]) + values
            && forall t :: 0 <= t < |chains| && t != s ==>
                 ChainValues(props', chains'[t]) == ChainValues(props, chains[t])
  {
    ExtendChain(props, spans[s], chains[s], values);
    ExtendValues(props, spans[s], chains[s], values);
    ChainInProps(props, spans[s], chains[s]);
    var props', chains' := Extend(props, spans[s], values), chains[s := chains[s] + [|props|]];
    forall t | 0 <= t < |chains| && t != s
      ensures GoodChain(props', spans[t], chains[t]) && ChainValues(props', chains[t]) == ChainValues(props, chains[t])
      ensures |props| !in chains[t]
    {
      assert Disjoint(chains[if s < t then s else t], chains[if s < t then t else s]);
      OtherChain(props, spans[s], values, spans[t], chains[t]);
    }
    forall a, b | 0 <= a < b < |chains'| ensures Disjoint(chains'[a], chains'[b]) {
      assert Disjoint(chains[a], chains[b]);
    }
  }

  lemma {:induction false} NewChain(props: seq<Prop>, spans: seq<ChainedSpan>, chains: seq<seq<nat>>, path: Bytes)
    requires Chained(props, spans, chains)
    ensures Chained(props, spans + [ChainedSpan(path, None, 0)], chains + [[]])
  {
    forall a, b | 0 <= a < b <= |chains| ensures Disjoint((chains + [[]])[a], (chains + [[]])[b]) {
      assert b < |chains| ==> Disjoint(chains[a], chains[b]);
    }
  }

  // -------------------------------------------------------------- contents

  type Contents = map<Bytes, seq<Bytes>>

  function ValueAt(contents: Contents, path: Bytes): seq<Bytes> {
    if path in contents then contents[path] else []
  }

  ghost predicate HasSpan(spans: seq<ChainedSpan>, path: Bytes) {
    exists s :: 0 <= s < |spans| && spans[s].path == path
  }

  /** The values of all spans, by path. */
  ghost predicate Holding(props: seq<Prop>, spans: seq<ChainedSpan>, chains: seq<seq<nat>>, contents: Contents)
    requires |chains| == |spans|
  {
    && (forall s :: 0 <= s < |spans| ==>
          spans[s].path in contents && contents[spans[s].path] == ChainValues(props, chains[s]))
    && (forall p :: p in contents ==> HasSpan(spans, p))
  }

  lemma {:induction false} LinkHolding(hash: Hash, slots: Slots, props: seq<Prop>, spans: seq<ChainedSpan>,
                                       chains: seq<seq<nat>>,
                                       contents: Contents, s: nat, values: seq<Bytes>)
    requires Indexed(hash, slots, spans) && Chained(props, spans, chains) && Holding(props, spans, chains, contents)
    requires s < |spans|
    ensures spans[s].first.Some? ==> spans[s].last < |props|
    ensures var path := spans[s].path;
            Holding(Extend(props, spans[s], values), spans[s := Extended(spans[s], |props|)],
                    chains[s := chains[s] + [|props|]],
                    contents[path := contents[path] + values])
  {
    LinkChained(props, spans, chains, s, values);
    var path, spans', props' := spans[s].path, spans[s := Extended(spans[s], |props|)], Extend(props, spans[s], values);
    var chains', contents' := chains[s := chains[s] + [|props|]], contents[path := contents[path] + values];
    forall t | 0 <= t < |spans|
      ensures spans'[t].path in contents' && contents'[spans'[t].path] == ChainValues(props', chains'[t])
    {
      if t != s {
        OtherPath(hash, slots, spans, s, t);
      }
    }
    forall p | p in contents' ensures HasSpan(spans', p) {
      SamePathsHasSpan(spans, s, |props|, p);
    }
  }

  lemma {:induction false} LinkStep(hash: Hash, slots: Slots, props: seq<Prop>, spans: seq<ChainedSpan>,
                                    chains: seq<seq<nat>>,
                                    contents: Contents, s: nat, values: seq<Bytes>)
    requires Indexed(hash, slots, spans) && Chained(props, spans, chains) && Holding(props, spans, chains, contents)
    requires s < |spans|
    ensures spans[s].first.Some? ==> spans[s].last < |props|
    ensures spans[s].path in contents
    ensures var props', spans' := Extend(props, spans[s], values), spans[s := Extended(spans[s], |props|)];
            var chains', path := chains[s := chains[s] + [|props|]], spans[s].path;
            && Indexed(hash, slots, spans') && Chained(props', spans', chains')
            && Holding(props', spans', chains', contents[path := contents[path] + values])
  {
    LinkChained(props, spans, chains, s, values);
    LinkHolding(hash, slots, props, spans, chains, contents, s, values);
    SamePathsIndexed(hash, slots, spans, spans[s := Extended(spans[s], |props|)]);
  }

  lemma {:induction false} OtherPath(hash: Hash, slots: Slots, spans: seq<ChainedSpan>, s: nat, t: nat)
    requires Indexed(hash, slots, spans) && s < |spans| && t < |spans| && s != t
    ensures spans[s].path != spans[t].path
  {
    if spans[s].path == spans[t].path {
      PathsDiffer(hash, slots, spans, s, t);
    }
  }

  lemma {:induction false} SamePathsHasSpan(spans: seq<ChainedSpan>, s: nat, i: nat, p: Bytes)
    requires s < |spans| && HasSpan(spans, p)
    ensures HasSpan(spans[s := Extended(spans[s], i)], p)
  {
    var t :| 0 <= t < |spans| && spans[t].path == p;
    assert spans[s := Extended(spans[s], i)][t].path == p;
  }

  lemma {:induction false} NewHolding(props: seq<Prop>, spans: seq<ChainedSpan>, chains: seq<seq<nat>>,
                                      contents: Contents, path: Bytes)
    requires |chains| == |spans| && Holding(props, spans, chains, contents)
    requires forall s :: 0 <= s < |spans| ==> spans[s].path != path
    ensures Holding(props, spans + [ChainedSpan(path, None, 0)], chains + [[]], contents[path := []])
    ensures path !in contents
  {
    var spans' := spans + [ChainedSpan(path, None, 0)];
    forall p | p in contents[path := []] ensures HasSpan(spans', p) {
      if p == path {
        assert spans'[|spans|].path == p;
      } else {
        var t :| 0 <= t < |spans| && spans[t].path == p;
        assert spans'[t].path == p;
      }
    }
  }

  // ---------------------------------------------------- what reset gathers

  /** The property at prop goes to the span of p: p is its path, or a wildcard path before one of its first n dots. */
  ghost predicate Took(wilds: set<Bytes>, prop: Bytes, n: nat, p: Bytes) {
    p == prop || exists d :: 0 <= d < n && WildAt(wilds, prop, d, p)
  }

  ghost predicate WildAt(wilds: set<Bytes>, prop: Bytes, d: nat, p: Bytes) {
    d < |prop| && prop[d] == DOT && prop[..d] in wilds && p == Paths.WildPath(prop[..d])
  }

  ghost function Gathered(wilds: set<Bytes>, event: Rules.Event, p: Bytes): seq<Bytes> {
    if event == [] then []
    else
      var init, last := event[..|event| - 1], event[|event| - 1];
      Gathered(wilds, init, p) + if Took(wilds, last.path, |last.path|, p) then last.values else []
  }

  lemma {:induction false} ValuesAtSnoc(event: Rules.Event, x: Rules.Property, p: Bytes)
    ensures Rules.ValuesAt(event + [x], p) == Rules.ValuesAt(event, p) + if Rules.RefersTo(p, x.path) then x.values
            else []
  {
    if event == [] {
      assert event + [x] == [x];
    } else {
      ValuesAtSnoc(event[1..], x, p);
      assert (event + [x])[1..] == event[1..] + [x];
    }
  }

  lemma {:induction false} TookRefers(known: Paths.Index, prop: Bytes, p: Bytes)
    requires Paths.Valid(known) && p in known.paths
    ensures Took(known.wilds, prop, |prop|, p) <==> Rules.RefersTo(p, prop)
  {
    Paths.WildBaseOf(p);
    if p != prop && Rules.RefersTo(p, prop) {
      var base := Rules.WildBase(p).value;
      assert prop[..|base|] == base;
      assert WildAt(known.wilds, prop, |base|, p);
    }
  }

  /** For the paths conditions refer to, this is what the naive evaluation looks at. */
  lemma {:induction false} GatheredIsValuesAt(known: Paths.Index, event: Rules.Event, p: Bytes)
    requires Paths.Valid(known) && p in known.paths
    ensures Gathered(known.wilds, event, p) == Rules.ValuesAt(event, p)
  {
    if event != [] {
      var init, last := event[..|event| - 1], event[|event| - 1];
      GatheredIsValuesAt(known, init, p);
      TookRefers(known, last.path, p);
      ValuesAtSnoc(init, last, p);
      assert event == init + [last];
    }
  }

  /** At most one dot is in front of a wildcard. */
  lemma {:induction false} TookStep(wilds: set<Bytes>, prop: Bytes, n: nat, p: Bytes)
    ensures Took(wilds, prop, n + 1, p) <==> Took(wilds, prop, n, p) || WildAt(wilds, prop, n, p)
    ensures WildAt(wilds, prop, n, p) && p != prop ==> !Took(wilds, prop, n, p)
  {
    if WildAt(wilds, prop, n, p) {
      assert |p| == n + 2;
    }
  }

  /** The property with the values was added to the spans of the paths it was taken to. */
  ghost predicate Taken(wilds: set<Bytes>, before: Contents, prop: Bytes, values: seq<Bytes>, n: nat,
                        contents: Contents)
  {
    forall p :: ValueAt(contents, p) == ValueAt(before, p) + if Took(wilds, prop, n, p) then values else []
  }

  lemma {:induction false} TakenNext(wilds: set<Bytes>, before: Contents, prop: Bytes, values: seq<Bytes>, n: nat,
                                     contents: Contents, contents': Contents)
    requires Taken(wilds, before, prop, values, n, contents) && n < |prop|
    requires var wild := Paths.WildPath(prop[..n]);
             contents' == if prop[n] == DOT && prop[..n] in wilds && wild != prop
                          then contents[wild := ValueAt(contents, wild) + values] else contents
    ensures Taken(wilds, before, prop, values, n + 1, contents')
  {
    forall p ensures ValueAt(contents', p) == ValueAt(before, p) + if Took(wilds, prop, n + 1, p) then values else [] {
      TookStep(wilds, prop, n, p);
      assert ValueAt(contents, p) == ValueAt(before, p) + if Took(wilds, prop, n, p) then values else [];
    }
  }

  // ------------------------------------------------------------- the buffers

  ghost predicate AllNonempty(contents: Contents) {
    forall p :: p in contents ==> contents[p] != []
  }

  /**
   * How full the table can be after n properties: spans of properties are added
   * without looking, those of wildcard paths only while half of the slots stay
   * empty.
   */
  ghost predicate Fits(spans: nat, slots: nat, n: nat) {
    spans <= n || 2 * spans <= slots + 2 * (n - 1)
  }

  lemma {:induction false} AppendedContents(contents: Contents, path: Bytes, values: seq<Bytes>)
    requires AllNonempty(contents) && values != []
    ensures var found := contents[path := ValueAt(contents, path)];
            var after := contents[path := ValueAt(contents, path) + values];
            found[path := found[path] + values] == after && AllNonempty(after)
  {
  }

  /** The contents are what is gathered from the event for every path. */
  ghost predicate HasGathered(wilds: set<Bytes>, event: Rules.Event, contents: Contents) {
    forall p :: ValueAt(contents, p) == Gathered(wilds, event, p)
  }

  /** The loop of reset: the property is in the table, at its path and below wildcards. */
  lemma {:induction false} GatheredNext(wilds: set<Bytes>, event: Rules.Event, i: nat, before: Contents,
                                        after: Contents)
    requires i < |event|
    requires HasGathered(wilds, event[..i], before)
    requires Taken(wilds, before, event[i].path, event[i].values, |event[i].path|, after)
    ensures HasGathered(wilds, event[..i + 1], after)
  {
    TakeNext(event, i);
    forall p ensures ValueAt(after, p) == Gathered(wilds, event[..i + 1], p) {
      assert event[..i + 1][..i] == event[..i];
      assert ValueAt(before, p) == Gathered(wilds, event[..i], p);
    }
  }

  lemma {:induction false} TakenDirect(wilds: set<Bytes>, before: Contents, path: Bytes, values: seq<Bytes>)
    ensures Taken(wilds, before, path, values, 0, before[path := ValueAt(before, path) + values])
  {
  }

  /** Without wildcards, or without values, there is nothing else to do. */
  lemma {:induction false} TakenDone(wilds: set<Bytes>, before: Contents, path: Bytes, values: seq<Bytes>, n: nat,
                                     after: Contents)
    requires Taken(wilds, before, path, values, n, after) && wilds == {}
    ensures Taken(wilds, before, path, values, |path|, after)
  {
    forall p ensures Took(wilds, path, |path|, p) <==> Took(wilds, path, n, p) {
      assert forall d :: !WildAt(wilds, path, d, p);
    }
  }

  class SpanTable {
    const hash: Hash
    var slots: Slots
    var spans: seq<ChainedSpan>
    var props: seq<Prop>
    ghost var chains: seq<seq<nat>>
    ghost var contents: Contents

    /** The spans can be found by path and hold the contents. */
    ghost predicate Valid()
      reads this
    {
      && Indexed(hash, slots, spans) && Chained(props, spans, chains) && Holding(props, spans, chains, contents)
      && |spans| < |slots|
    }

    constructor (hash: Hash, size: nat)
      requires size > 0
      ensures Valid() && this.hash == hash && |slots| == size && spans == [] && contents == map[]
    {
      this.hash, slots, spans, props := hash, EmptySlots(size), [], [];
      chains, contents := [], map[];
      EmptyIndexed(hash, size);
    }

    /** The slot of path, or the empty slot where probing ends. */
    method Locate(path: Bytes) returns (j: nat)
      requires Valid()
      ensures j < |slots| && Found(hash, KeysOf(slots, spans), path, j)
      ensures slots[j].Some? ==> slots[j].value < |spans| && spans[slots[j].value].path == path
      ensures slots[j].None? <==> path !in contents
    {
      LoadLeavesEmpty(KeysOf(slots, spans));
      j := Probe(hash, KeysOf(slots, spans), hash(path), path);
      FoundSpan(hash, slots, spans, path, j);
      ContentsHaveSpan(props, spans, chains, contents, path);
    }

    /** find: the span of path, if it has one. A slot is empty, so probing ends. */
    method Find(path: Bytes) returns (s: Option<nat>)
      requires Valid()
      ensures s.Some? ==> s.value < |spans| && spans[s.value].path == path
      ensures s.None? <==> path !in contents
    {
      var j := Locate(path);
      s := slots[j];
    }

    /** A new span without properties in the empty slot j. */
    method NewSpan(path: Bytes, j: nat)
      requires Valid() && |spans| + 1 < |slots|
      requires Found(hash, KeysOf(slots, spans), path, j) && slots[j].None?
      modifies this
      ensures Valid() && path !in old(contents) && contents == old(contents)[path := []]
      ensures spans == old(spans) + [ChainedSpan(path, None, 0)] && |slots| == |old(slots)|
    {
      FoundSpan(hash, slots, spans, path, j);
      NewSpanIndexed(hash, slots, spans, ChainedSpan(path, None, 0), j);
      NewChain(props, spans, chains, path);
      NewHolding(props, spans, chains, contents, path);
      slots := slots[j := Some(|spans|)];
      spans := spans + [ChainedSpan(path, None, 0)];
      chains, contents := chains + [[]], contents[path := []];
    }

    /** Links a property with the values to the end of span s. */
    method LinkProp(s: nat, values: seq<Bytes>)
      requires Valid() && s < |spans|
      modifies this
      ensures Valid() && |spans| == |old(spans)| && slots == old(slots)
      ensures old(spans)[s].path in old(contents)
      ensures contents == old(contents)[old(spans)[s].path := old(contents)[old(spans)[s].path] + values]
    {
      LinkStep(hash, slots, props, spans, chains, contents, s, values);
      ghost var path := spans[s].path;
      chains, contents := chains[s := chains[s] + [|props|]], contents[path := contents[path] + values];
      var more := Extend(props, spans[s], values);
      spans := spans[s := Extended(spans[s], |props|)];
      props := more;
    }

    /** reset adds the path of a property without checking the load. */
    method AddDirect(path: Bytes, values: seq<Bytes>)
      requires Valid() && |spans| + 1 < |slots|
      modifies this
      ensures Valid() && |slots| == |old(slots)| && |spans| <= |old(spans)| + 1
      ensures contents == old(contents)[path := ValueAt(old(contents), path) + values]
    {
      var j := Locate(path);
      if slots[j].None? {
        NewSpan(path, j);
        LinkProp(|spans| - 1, values);
      } else {
        LinkProp(slots[j].value, values);
      }
    }

    /** jsonSpan: the span of path, added if necessary, in a table that stays at least half empty. */
    method JsonSpan(path: Bytes) returns (s: nat)
      requires Valid()
      modifies this
      ensures Valid() && |slots| >= |old(slots)| && s < |spans| && spans[s].path == path
      ensures |spans| == |old(spans)| || 2 * |spans| <= |slots|
      ensures old(spans) <= spans && |spans| <= |old(spans)| + 1
      ensures |spans| > |old(spans)| ==> s == |old(spans)|
      ensures contents == old(contents)[path := ValueAt(old(contents), path)]
    {
      if 2 * (|spans| + 1) > |slots| {
        slots := Rehash(hash, slots, spans, 2 * |slots|);
      }
      var j := Locate(path);
      if slots[j].None? {
        s := |spans|;
        NewSpan(path, j);
      } else {
        s := slots[j].value;
      }
    }

    /** The values of a property below the wildcard path. */
    method AddChecked(path: Bytes, values: seq<Bytes>)
      requires Valid() && AllNonempty(contents) && values != []
      modifies this
      ensures Valid() && AllNonempty(contents) && |slots| >= |old(slots)|
      ensures |spans| == |old(spans)| || 2 * |spans| <= |slots|
      ensures contents == old(contents)[path := ValueAt(old(contents), path) + values]
    {
      AppendedContents(contents, path, values);
      var s := JsonSpan(path);
      LinkProp(s, values);
    }

    /** addWild: adds the values to the spans of the wildcard paths the path is below. */
    method AddWild(wilds: set<Bytes>, path: Bytes, values: seq<Bytes>, ghost before: Contents)
      requires Valid() && AllNonempty(contents) && values != [] && Taken(wilds, before, path, values, 0, contents)
      modifies this
      ensures Valid() && AllNonempty(contents) && |slots| >= |old(slots)|
      ensures |spans| == |old(spans)| || 2 * |spans| <= |slots|
      ensures Taken(wilds, before, path, values, |path|, contents)
    {
      for i := 0 to |path|
        invariant Valid() && AllNonempty(contents) && |slots| >= |old(slots)|
        invariant |spans| == |old(spans)| || 2 * |spans| <= |slots|
        invariant Taken(wilds, before, path, values, i, contents)
      {
        ghost var c := contents;
        if path[i] == DOT && path[..i] in wilds && Paths.WildPath(path[..i]) != path {
          AddChecked(Paths.WildPath(path[..i]), values);
        }
        TakenNext(wilds, before, path, values, i, c, contents);
      }
    }
  }

  lemma {:induction false} ContentsHaveSpan(props: seq<Prop>, spans: seq<ChainedSpan>, chains: seq<seq<nat>>,
                                            contents: Contents, path: Bytes)
    requires |chains| == |spans| && Holding(props, spans, chains, contents)
    ensures path in contents <==> HasSpan(spans, path)
  {
  }

  /** The number of slots for n properties. */
  method SizeFor(n: nat) returns (size: nat)
    ensures size > 0 && size >= 2 * n
  {
    size := 8;
    while size < 2 * n
      invariant size > 0
      decreases 2 * n - size
    {
      size := size * 2;
    }
  }

  /** The table of an event, before its values are folded. */
  method Fill(hash: Hash, event: Rules.Event, wilds: set<Bytes>) returns (t: SpanTable)
    ensures fresh(t) && t.Valid() && AllNonempty(t.contents) && t.hash == hash
    ensures HasGathered(wilds, event, t.contents)
  {
    var size := SizeFor(|event|);
    t := new SpanTable(hash, size);
    for i := 0 to |event|
      invariant fresh(t) && t.Valid() && AllNonempty(t.contents)
      invariant |t.slots| >= 2 * |event| && Fits(|t.spans|, |t.slots|, i)
      invariant HasGathered(wilds, event[..i], t.contents)
    {
      ghost var before := t.contents;
      AddProperty(t, event[i], wilds, i, |event|);
      GatheredNext(wilds, event, i, before, t.contents);
    }
    TakeAll(event);
  }

  /** The body of the loop of reset. */
  method AddProperty(t: SpanTable, p: Rules.Property, wilds: set<Bytes>, ghost i: nat, ghost n: nat)
    requires t.Valid() && AllNonempty(t.contents) && i < n
    requires |t.slots| >= 2 * n && Fits(|t.spans|, |t.slots|, i)
    modifies t
    ensures t.Valid() && AllNonempty(t.contents)
    ensures |t.slots| >= 2 * n && Fits(|t.spans|, |t.slots|, i + 1)
    ensures Taken(wilds, old(t.contents), p.path, p.values, |p.path|, t.contents)
  {
    if |p.values| == 0 {
      return;
    }
    TakenDirect(wilds, t.contents, p.path, p.values);
    t.AddDirect(p.path, p.values);
    if wilds != {} {
      t.AddWild(wilds, p.path, p.values, old(t.contents));
    } else {
      TakenDone(wilds, old(t.contents), p.path, p.values, 0, t.contents);
    }
  }

  // ----------------------------------------------------------------- folding

  lemma {:induction false} FoldConcat(w: World, a: seq<Bytes>, b: seq<Bytes>)
    ensures Rules.FoldAll(w, a + b) == Rules.FoldAll(w, a) + Rules.FoldAll(w, b)
  {
  }

  lemma {:induction false} FoldNext(w: World, props: seq<Prop>, chain: seq<nat>, k: nat)
    requires k < |chain| && chain[k] < |props|
    ensures Rules.FoldAll(w, ChainValues(props, chain[..k + 1])) ==
            Rules.FoldAll(w, ChainValues(props, chain[..k])) + Rules.FoldAll(w, props[chain[k]].values)
  {
    FoldConcat(w, ChainValues(props, chain[..k]), props[chain[k]].values);
    assert chain[..k + 1][..k] == chain[..k];
  }

  /** The folded values of a span, in the order of its properties (evalGroup, on first use). */
  method FoldSpan(w: World, props: seq<Prop>, span: ChainedSpan, ghost chain: seq<nat>) returns (r: seq<Bytes>)
    requires GoodChain(props, span, chain)
    ensures r == Rules.FoldAll(w, ChainValues(props, chain))
  {
    r := [];
    var i := span.first;
    ghost var k := 0;
    while i.Some?
      invariant k <= |chain| && i == (if k < |chain| then Some(chain[k]) else None)
      invariant r == Rules.FoldAll(w, ChainValues(props, chain[..k]))
      decreases |chain| - k
    {
      assert InChain(props, chain, k);
      FoldNext(w, props, chain, k);
      r := r + Rules.FoldAll(w, props[i.value].values);
      i := props[i.value].next;
      k := k + 1;
    }
    TakeAll(chain);
  }

  ghost predicate FoldedSpan(w: World, contents: Contents, span: ChainedSpan, r: Span) {
    r.path == span.path && r.path in contents && r.values == Rules.FoldAll(w, contents[r.path])
  }

  method FoldAllSpans(w: World, t: SpanTable) returns (r: seq<Span>)
    requires t.Valid()
    ensures |r| == |t.spans| && forall s :: 0 <= s < |r| ==> FoldedSpan(w, t.contents, t.spans[s], r[s])
  {
    r := [];
    for s := 0 to |t.spans|
      invariant |r| == s && forall q :: 0 <= q < s ==> FoldedSpan(w, t.contents, t.spans[q], r[q])
    {
      assert GoodChain(t.props, t.spans[s], t.chains[s]);
      var values := FoldSpan(w, t.props, t.spans[s], t.chains[s]);
      r := r + [Span(t.spans[s].path, values)];
    }
  }

  lemma {:induction false} FoldedReads(w: World, hash: Hash, slots: Slots, spans: seq<ChainedSpan>, contents: Contents,
                                       event: Rules.Event,
                                       known: Paths.Index, r: seq<Span>)
    requires Paths.Valid(known) && Indexed(hash, slots, spans) && AllNonempty(contents)
    requires forall p :: p in contents ==> HasSpan(spans, p)
    requires forall p :: ValueAt(contents, p) == Gathered(known.wilds, event, p)
    requires |r| == |spans| && forall s :: 0 <= s < |r| ==> FoldedSpan(w, contents, spans[s], r[s])
    ensures Reads(w, r, event, known.paths)
  {
    forall i, j | 0 <= i < j < |r| ensures r[i].path != r[j].path {
      assert FoldedSpan(w, contents, spans[i], r[i]) && FoldedSpan(w, contents, spans[j], r[j]);
      OtherPath(hash, slots, spans, i, j);
    }
    forall i | 0 <= i < |r| ensures r[i].values != [] {
      assert FoldedSpan(w, contents, spans[i], r[i]);
    }
    forall p | p in known.paths ensures At(r, p) == Rules.FoldedAt(w, event, p) {
      GatheredIsValuesAt(known, event, p);
      FoldedAtPath(w, spans, contents, r, p);
    }
  }

  lemma {:induction false} FoldedAtPath(w: World, spans: seq<ChainedSpan>, contents: Contents, r: seq<Span>, p: Bytes)
    requires p in contents ==> HasSpan(spans, p)
    requires |r| == |spans| && forall s :: 0 <= s < |r| ==> FoldedSpan(w, contents, spans[s], r[s])
    ensures At(r, p) == Rules.FoldAll(w, ValueAt(contents, p))
  {
    var i := FindSpan(r, p);
    if i.Some? {
      assert FoldedSpan(w, contents, spans[i.value], r[i.value]);
    } else {
      forall s | 0 <= s < |spans| ensures spans[s].path != p {
        assert FoldedSpan(w, contents, spans[s], r[s]);
      }
    }
  }

  /** reset: the values at every path some condition refers to, whatever the hash function. */
  method Reset(w: World, hash: Hash, event: Rules.Event, known: Paths.Index) returns (spans: seq<Span>)
    requires Paths.Valid(known)
    ensures Reads(w, spans, event, known.paths)
  {
    var t := Fill(hash, event, known.wilds);
    spans := FoldAllSpans(w, t);
    FoldedReads(w, hash, t.slots, t.spans, t.contents, event, known, spans);
  }
}
