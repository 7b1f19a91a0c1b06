/** The hash table of the paths of one event (reset, jsonSpan and rehash, in engine.go and matchjson.go). */
module SpanIndex {
  import opened ByteStrings
  import opened Probing

  /** The properties of a span are chained from first to last; without any, first is None. */
  datatype ChainedSpan = ChainedSpan(path: Bytes, first: Option<nat>, last: nat)

  /** The values of an event property, and the next property of the same span. */
  datatype Prop = Prop(values: seq<Bytes>, next: Option<nat>)

  /** Every slot is empty or holds the number of a span. */
  type Slots = seq<Option<nat>>

  // ---------------------------------------------------------- the hash table

  function KeyAt(slots: Slots, spans: seq<ChainedSpan>, j: nat): Option<Bytes>
    requires j < |slots|
  {
    match slots[j]
    case None => None
    case Some(s) => if s < |spans| then Some(spans[s].path) else None
  }

  function KeysOf(slots: Slots, spans: seq<ChainedSpan>): (ks: Keys)
    ensures |ks| == |slots| && forall j :: 0 <= j < |slots| ==> ks[j] == KeyAt(slots, spans, j)
  {
    seq(|slots|, j requires 0 <= j < |slots| => KeyAt(slots, spans, j))
  }

  ghost predicate InSlots(slots: Slots, s: nat) {
    exists j :: 0 <= j < |slots| && slots[j] == Some(s)
  }

  /** The slots hold exactly the spans, each where probing for its path finds it. */
  ghost predicate Indexed(hash: Hash, slots: Slots, spans: seq<ChainedSpan>) {
    && (forall j :: 0 <= j < |slots| && slots[j].Some? ==> slots[j].value < |spans|)
    && (forall s :: 0 <= s < |spans| ==> InSlots(slots, s))
    && Probing.Valid(hash, KeysOf(slots, spans)) && Used(KeysOf(slots, spans)) == |spans|
  }

  lemma {:induction false} PathsDiffer(hash: Hash, slots: Slots, spans: seq<ChainedSpan>, s: nat, t: nat)
    requires Indexed(hash, slots, spans) && s < |spans| && t < |spans| && spans[s].path == spans[t].path
    ensures s == t
  {
    assert InSlots(slots, s) && InSlots(slots, t);
    var i :| 0 <= i < |slots| && slots[i] == Some(s);
    var j :| 0 <= j < |slots| && slots[j] == Some(t);
    assert KeysOf(slots, spans)[i] == KeysOf(slots, spans)[j] == Some(spans[s].path);
  }

  /** Probing for a path finds its span, or an empty slot if there is none. */
  lemma {:induction false} FoundSpan(hash: Hash, slots: Slots, spans: seq<ChainedSpan>, path: Bytes, j: nat)
    requires Indexed(hash, slots, spans) && Found(hash, KeysOf(slots, spans), path, j)
    ensures slots[j].Some? ==> slots[j].value < |spans| && spans[slots[j].value].path == path
    ensures slots[j].None? ==> forall s :: 0 <= s < |spans| ==> spans[s].path != path
  {
    var ks := KeysOf(slots, spans);
    if slots[j].None? {
      EmptyMeansAbsent(hash, ks, path, j);
      forall s | 0 <= s < |spans| ensures spans[s].path != path {
        assert InSlots(slots, s);
        var i :| 0 <= i < |slots| && slots[i] == Some(s);
        assert ks[i] in ks;
      }
    }
  }

  lemma {:induction false} NewSpanIndexed(hash: Hash, slots: Slots, spans: seq<ChainedSpan>, span: ChainedSpan, j: nat)
    requires Indexed(hash, slots, spans) && Found(hash, KeysOf(slots, spans), span.path, j) && slots[j].None?
    ensures Indexed(hash, slots[j := Some(|spans|)], spans + [span])
  {
    var ks, slots', spans' := KeysOf(slots, spans), slots[j := Some(|spans|)], spans + [span];
    assert KeysOf(slots', spans') == ks[j := Some(span.path)];
    StoreValid(hash, ks, span.path, j);
    StoreUsed(ks, j, span.path);
    forall s | 0 <= s < |spans'| ensures InSlots(slots', s) {
      if s < |spans| {
        assert InSlots(slots, s);
        var i :| 0 <= i < |slots| && slots[i] == Some(s);
        assert slots'[i] == Some(s);
      } else {
        assert slots'[j] == Some(s);
      }
    }
  }

  /** What a span refers to may change, but not its path. */
  lemma {:induction false} SamePathsIndexed(hash: Hash, slots: Slots, spans: seq<ChainedSpan>, spans': seq<ChainedSpan>)
    requires Indexed(hash, slots, spans) && |spans'| == |spans|
    requires forall s :: 0 <= s < |spans| ==> spans'[s].path == spans[s].path
    ensures Indexed(hash, slots, spans')
  {
    assert KeysOf(slots, spans') == KeysOf(slots, spans);
  }

  function EmptySlots(n: nat): (slots: Slots)
    ensures |slots| == n && forall j :: 0 <= j < n ==> slots[j] == None
  {
    seq(n, j => None)
  }

  lemma {:induction false} EmptyIndexed(hash: Hash, n: nat)
    ensures Indexed(hash, EmptySlots(n), [])
  {
    assert KeysOf(EmptySlots(n), []) == EmptyKeys(n);
    EmptyUsed(n);
  }

  /** rehash: the same spans in a table with size slots. */
  method Rehash(hash: Hash, ghost slots: Slots, spans: seq<ChainedSpan>, size: nat) returns (slots': Slots)
    requires Indexed(hash, slots, spans) && |spans| < size
    ensures Indexed(hash, slots', spans) && |slots'| == size
  {
    slots' := EmptySlots(size);
    EmptyIndexed(hash, size);
    assert spans[..0] == [];
    for i := 0 to |spans|
      invariant |slots'| == size && Indexed(hash, slots', spans[..i])
    {
      TakeNext(spans, i);
      ghost var path := spans[i].path;
      LoadLeavesEmpty(KeysOf(slots', spans[..i]));
      PathNotBefore(hash, slots, spans, slots', i);
      var j := ProbeEmpty(hash, KeysOf(slots', spans[..i]), hash(spans[i].path), path);
      NoKeyNoSpan(hash, slots', spans[..i], j);
      NewSpanIndexed(hash, slots', spans[..i], spans[i], j);
      slots' := slots'[j := Some(i)];
    }
    TakeAll(spans);
  }

  lemma {:induction false} NoKeyNoSpan(hash: Hash, slots: Slots, spans: seq<ChainedSpan>, j: nat)
    requires Indexed(hash, slots, spans) && j < |slots|
    ensures KeysOf(slots, spans)[j].None? <==> slots[j].None?
  {
  }

  lemma {:induction false} PathNotBefore(hash: Hash, slots: Slots, spans: seq<ChainedSpan>, slots': Slots, i: nat)
    requires Indexed(hash, slots, spans) && i < |spans|
    ensures Some(spans[i].path) !in KeysOf(slots', spans[..i])
  {
    var ks := KeysOf(slots', spans[..i]);
    forall j | 0 <= j < |ks| ensures ks[j] != Some(spans[i].path) {
      if ks[j].Some? && spans[slots'[j].value].path == spans[i].path {
        PathsDiffer(hash, slots, spans, slots'[j].value, i);
      }
    }
  }
}
