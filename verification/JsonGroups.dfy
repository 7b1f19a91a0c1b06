/** The values recorded from a JSON event, grouped by span (groupJSONValues and resetJSON in matchjson.go). */
module JsonGroups {
  import opened ByteStrings
  import opened SpanIndex
  import opened SpanTables
  import opened JsonGrammar
  import opened JsonRecords
  import opened MatchJson
  import opened Walks
  import opened Results
  import Paths
  import Probing
  import Rules

  /** The values of span s, in the order in which they were recorded. */
  function OfSpan(jvals: seq<JVal>, s: nat): seq<Bytes> {
    if jvals == [] then []
    else
      var last := jvals[|jvals| - 1];
      OfSpan(jvals[..|jvals| - 1], s) + if last.span == s then [last.value] else []
  }

  lemma {:induction false} OfSpanNext(jvals: seq<JVal>, i: nat, s: nat)
    requires i < |jvals|
    ensures OfSpan(jvals[..i + 1], s) == OfSpan(jvals[..i], s) + if jvals[i].span == s then [jvals[i].value] else []
  {
    assert jvals[..i + 1][..i] == jvals[..i];
  }

  lemma {:induction false} OfSpanGrows(jvals: seq<JVal>, i: nat, s: nat)
    requires i <= |jvals|
    ensures |OfSpan(jvals[..i], s)| <= |OfSpan(jvals, s)|
    decreases |jvals|
  {
    if i == |jvals| {
      TakeAll(jvals);
    } else {
      var init := jvals[..|jvals| - 1];
      OfSpanGrows(init, i, s);
      assert init[..i] == jvals[..i];
    }
  }

  /** The counting pass. */
  method Count(jvals: seq<JVal>, n: nat) returns (counts: seq<nat>)
    requires forall i :: 0 <= i < |jvals| ==> jvals[i].span < n
    ensures |counts| == n && forall s :: 0 <= s < n ==> counts[s] == |OfSpan(jvals, s)|
  {
    counts := seq(n, _ => 0);
    for i := 0 to |jvals|
      invariant |counts| == n && forall s :: 0 <= s < n ==> counts[s] == |OfSpan(jvals[..i], s)|
    {
      forall s: nat {
        OfSpanNext(jvals, i, s);
      }
      counts := counts[jvals[i].span := counts[jvals[i].span] + 1];
    }
    TakeAll(jvals);
  }

  /** Every span has room for its values, after those of the spans before it. */
  ghost predicate Starts(flo: seq<nat>, counts: seq<nat>, total: nat) {
    && |flo| <= |counts|
    && (forall s, t :: 0 <= s < t < |flo| ==> flo[s] + counts[s] <= flo[t])
    && (forall s :: 0 <= s < |flo| ==> flo[s] + counts[s] <= total)
  }

  method Offsets(counts: seq<nat>) returns (flo: seq<nat>, total: nat)
    ensures |flo| == |counts| && Starts(flo, counts, total)
  {
    flo, total := [], 0;
    for i := 0 to |counts|
      invariant |flo| == i && Starts(flo, counts, total)
    {
      flo := flo + [total];
      total := total + counts[i];
    }
  }

  /** The first i values are in place. */
  ghost predicate Placed(jvals: seq<JVal>, i: nat, flo: seq<nat>, fhi: seq<nat>, refs: seq<Bytes>)
    requires i <= |jvals|
  {
    && |fhi| == |flo|
    && forall s :: 0 <= s < |flo| ==> flo[s] <= fhi[s] <= |refs| && refs[flo[s]..fhi[s]] == OfSpan(jvals[..i], s)
  }

  lemma {:induction false} PlaceNext(jvals: seq<JVal>, i: nat, flo: seq<nat>, fhi: seq<nat>, refs: seq<Bytes>,
                                     counts: seq<nat>)
    requires i < |jvals| && Placed(jvals, i, flo, fhi, refs) && |counts| == |flo| && Starts(flo, counts, |refs|)
    requires jvals[i].span < |flo| && forall s :: 0 <= s < |flo| ==> counts[s] == |OfSpan(jvals, s)|
    ensures fhi[jvals[i].span] < |refs|
    ensures var q := jvals[i].span;
            Placed(jvals, i + 1, flo, fhi[q := fhi[q] + 1], refs[fhi[q] := jvals[i].value])
  {
    var q := jvals[i].span;
    RoomLeft(jvals, i, flo, fhi, refs, counts, q);
    var refs', fhi' := refs[fhi[q] := jvals[i].value], fhi[q := fhi[q] + 1];
    forall s | 0 <= s < |flo| ensures fhi'[s] <= |refs| && refs'[flo[s]..fhi'[s]] == OfSpan(jvals[..i + 1], s) {
      OfSpanNext(jvals, i, s);
      if s == q {
        assert refs'[flo[s]..fhi'[s]] == refs[flo[s]..fhi[s]] + [jvals[i].value];
      } else {
        RoomLeft(jvals, i, flo, fhi, refs, counts, s);
        assert refs'[flo[s]..fhi[s]] == refs[flo[s]..fhi[s]];
      }
    }
  }

  lemma {:induction false} RoomLeft(jvals: seq<JVal>, i: nat, flo: seq<nat>, fhi: seq<nat>, refs: seq<Bytes>,
                                    counts: seq<nat>, s: nat)
    requires i < |jvals| && Placed(jvals, i, flo, fhi, refs) && |counts| == |flo| && s < |flo|
    requires counts[s] == |OfSpan(jvals, s)|
    ensures fhi[s] <= flo[s] + counts[s] && (jvals[i].span == s ==> fhi[s] < flo[s] + counts[s])
  {
    assert |refs[flo[s]..fhi[s]]| == fhi[s] - flo[s];
    OfSpanNext(jvals, i, s);
    OfSpanGrows(jvals, i, s);
    OfSpanGrows(jvals, i + 1, s);
  }

  /** groupJSONValues: refs[flo[s]..fhi[s]] are the values of span s. */
  method Group(jvals: seq<JVal>, n: nat) returns (refs: seq<Bytes>, flo: seq<nat>, fhi: seq<nat>)
    requires forall i :: 0 <= i < |jvals| ==> jvals[i].span < n
    ensures |flo| == |fhi| == n
    ensures forall s :: 0 <= s < n ==> flo[s] <= fhi[s] <= |refs| && refs[flo[s]..fhi[s]] == OfSpan(jvals, s)
  {
    var counts := Count(jvals, n);
    var total;
    flo, total := Offsets(counts);
    fhi, refs := flo, seq(total, _ => []);
    for i := 0 to |jvals|
      invariant |refs| == total && |fhi| == n && Placed(jvals, i, flo, fhi, refs)
    {
      PlaceNext(jvals, i, flo, fhi, refs, counts);
      var q := jvals[i].span;
      refs := refs[fhi[q] := jvals[i].value];
      fhi := fhi[q := fhi[q] + 1];
    }
    TakeAll(jvals);
  }

  // ----------------------------------------------------------------- spans

  lemma {:induction false} OfSpanIsValuesOf(hash: Probing.Hash, slots: Slots, spans: seq<ChainedSpan>, jvals: seq<JVal>,
                                            found: seq<Found>, s: nat)
    requires Indexed(hash, slots, spans) && Recorded(spans, jvals, found) && s < |spans|
    ensures OfSpan(jvals, s) == ValuesOf(found, spans[s].path)
  {
    if jvals != [] {
      var i := |jvals| - 1;
      assert found[i] == Found(spans[jvals[i].span].path, jvals[i].value);
      OfSpanIsValuesOf(hash, slots, spans, jvals[..i], found[..i], s);
      if jvals[i].span != s {
        OtherPath(hash, slots, spans, jvals[i].span, s);
      }
    }
  }

  lemma {:induction false} NoValues(found: seq<Found>, p: Bytes)
    ensures ValuesOf(found, p) == [] <==> !HasValue(found, p)
  {
    if found != [] {
      var init := found[..|found| - 1];
      NoValues(init, p);
      if HasValue(init, p) {
        var i :| 0 <= i < |init| && init[i].path == p;
        assert found[i].path == p;
      }
      if HasValue(found, p) {
        var i :| 0 <= i < |found| && found[i].path == p;
        assert i < |init| ==> init[i].path == p;
      }
    }
  }

  lemma {:induction false} RecordedSpans(spans: seq<ChainedSpan>, jvals: seq<JVal>, found: seq<Found>, p: Bytes)
    requires Recorded(spans, jvals, found) && HasValue(found, p)
    ensures HasSpan(spans, p)
  {
    var i :| 0 <= i < |found| && found[i].path == p;
    assert found[i] == Found(spans[jvals[i].span].path, jvals[i].value);
  }

  ghost predicate GroupedSpan(found: seq<Found>, span: ChainedSpan, r: Span) {
    r.path == span.path && r.values == ValuesOf(found, span.path)
  }

  /** What was recorded is what matching reads. */
  lemma {:induction false} GroupedReads(w: World, hash: Probing.Hash, slots: Slots, spans: seq<ChainedSpan>,
                                        jvals: seq<JVal>, found: seq<Found>,
                                        paths: set<Bytes>, event: Rules.Event, r: seq<Span>)
    requires Indexed(hash, slots, spans) && Recorded(spans, jvals, found) && AllUsed(spans, found, None)
    requires Gain(w, paths, [], found, event)
    requires |r| == |spans| && forall s :: 0 <= s < |r| ==> GroupedSpan(found, spans[s], r[s])
    ensures Reads(w, r, event, paths)
  {
    forall i | 0 <= i < |r| ensures r[i].values != [] {
      assert GroupedSpan(found, spans[i], r[i]) && HasValue(found, spans[i].path);
      NoValues(found, spans[i].path);
    }
    forall i, j | 0 <= i < j < |r| ensures r[i].path != r[j].path {
      assert GroupedSpan(found, spans[i], r[i]) && GroupedSpan(found, spans[j], r[j]);
      OtherPath(hash, slots, spans, i, j);
    }
    forall p | p in paths ensures At(r, p) == Rules.FoldedAt(w, event, p) {
      GroupedAt(spans, jvals, found, r, p);
      assert ValuesOf(found, p) == ValuesOf([], p) + Rules.FoldedAt(w, event, p);
    }
  }

  lemma {:induction false} GroupedAt(spans: seq<ChainedSpan>, jvals: seq<JVal>, found: seq<Found>, r: seq<Span>,
                                     p: Bytes)
    requires Recorded(spans, jvals, found)
    requires |r| == |spans| && forall s :: 0 <= s < |r| ==> GroupedSpan(found, spans[s], r[s])
    ensures At(r, p) == ValuesOf(found, p)
  {
    var i := FindSpan(r, p);
    if i.Some? {
      assert GroupedSpan(found, spans[i.value], r[i.value]);
    } else {
      forall s | 0 <= s < |spans| ensures spans[s].path != p {
        assert GroupedSpan(found, spans[s], r[s]);
      }
      NoValues(found, p);
      if HasValue(found, p) {
        RecordedSpans(spans, jvals, found, p);
      }
    }
  }

  /** Every span with its values. */
  method GroupSpans(spans: seq<ChainedSpan>, jvals: seq<JVal>, ghost hash: Probing.Hash, ghost slots: Slots,
                    ghost found: seq<Found>)
    returns (r: seq<Span>)
    requires Indexed(hash, slots, spans) && Recorded(spans, jvals, found)
    ensures |r| == |spans| && forall s :: 0 <= s < |r| ==> GroupedSpan(found, spans[s], r[s])
  {
    var refs, flo, fhi := Group(jvals, |spans|);
    r := [];
    for s := 0 to |spans|
      invariant |r| == s && forall q :: 0 <= q < s ==> GroupedSpan(found, spans[q], r[q])
    {
      OfSpanIsValuesOf(hash, slots, spans, jvals, found, s);
      r := r + [Span(spans[s].path, refs[flo[s]..fhi[s]])];
    }
  }

  /** resetJSON: the values at every path some condition refers to, or None if the tokens are not an event. */
  method ResetJson(w: World, hash: Probing.Hash, toks: seq<Token>, known: Paths.Index)
    returns (spans: Option<seq<Span>>)
    requires Paths.Valid(known)
    ensures spans.Some? <==> EventMembers(toks).Some?
    ensures spans.Some? ==> Reads(w, spans.value, FlattenMembers(EventMembers(toks).value, []), known.paths)
  {
    var table := new SpanTable(hash, 16);
    var parser := new JsonParser(w, known, toks, table);
    var ok := parser.Event();
    if !ok {
      return None;
    }
    var r := GroupSpans(table.spans, parser.jvals, table.hash, table.slots, parser.found);
    GroupedReads(w, table.hash, table.slots, table.spans, parser.jvals, parser.found, known.paths,
                 FlattenMembers(EventMembers(toks).value, []), r);
    return Some(r);
  }
}
