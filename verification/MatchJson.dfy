/** The parser of MatchJSON, which records only what conditions refer to (matchjson.go). */
module MatchJson {
  import opened ByteStrings
  import opened SpanIndex
  import opened SpanTables
  import opened JsonGrammar
  import opened JsonRecords
  import JsonText
  import Paths
  import Probing
  import Rules

  /** A folded value, and the span it belongs to. */
  datatype JVal = JVal(span: nat, value: Bytes)

  /** A wildcard path the current value is below, and its span once it has a value. */
  datatype OpenWild = OpenWild(base: Bytes, span: Option<nat>)

  ghost predicate Recorded(spans: seq<ChainedSpan>, jvals: seq<JVal>, found: seq<Found>) {
    && |found| == |jvals|
    && forall i :: 0 <= i < |jvals| ==>
         jvals[i].span < |spans| && found[i] == Found(spans[jvals[i].span].path, jvals[i].value)
  }

  ghost predicate WildSpans(spans: seq<ChainedSpan>, jwild: seq<OpenWild>) {
    forall i :: 0 <= i < |jwild| && jwild[i].span.Some? ==>
      jwild[i].span.value < |spans| && spans[jwild[i].span.value].path == Paths.WildPath(jwild[i].base)
  }

  ghost predicate IsOpen(jwild: seq<OpenWild>, base: Bytes) {
    exists i :: 0 <= i < |jwild| && jwild[i].base == base
  }

  /** Exactly the wildcard paths the values at path are below are open, each once. */
  ghost predicate OpenFor(wilds: set<Bytes>, jwild: seq<OpenWild>, path: Bytes) {
    && (forall i, j :: 0 <= i < j < |jwild| ==> jwild[i].base != jwild[j].base)
    && (forall b :: IsOpen(jwild, b) <==> Opens(wilds, path, b))
  }

  ghost predicate SameBases(a: seq<OpenWild>, b: seq<OpenWild>) {
    |a| == |b| && forall i :: 0 <= i < |a| ==> a[i].base == b[i].base
  }

  lemma {:induction false} SameBasesOpen(wilds: set<Bytes>, a: seq<OpenWild>, b: seq<OpenWild>, path: Bytes)
    requires SameBases(a, b) && OpenFor(wilds, a, path)
    ensures OpenFor(wilds, b, path)
  {
    forall base ensures IsOpen(b, base) <==> IsOpen(a, base) {
      if IsOpen(a, base) {
        var i :| 0 <= i < |a| && a[i].base == base;
        assert b[i].base == base;
      }
      if IsOpen(b, base) {
        var i :| 0 <= i < |b| && b[i].base == base;
        assert a[i].base == base;
      }
    }
  }

  ghost predicate HasValue(found: seq<Found>, path: Bytes) {
    exists i :: 0 <= i < |found| && found[i].path == path
  }

  /** Every span has a value, except perhaps that of one path. */
  ghost predicate AllUsed(spans: seq<ChainedSpan>, found: seq<Found>, except: Option<Bytes>) {
    forall s :: 0 <= s < |spans| ==> HasValue(found, spans[s].path) || Some(spans[s].path) == except
  }

  lemma {:induction false} UsedMore(spans: seq<ChainedSpan>, found: seq<Found>, f: Found, except: Option<Bytes>)
    requires AllUsed(spans, found, except) && (except.None? || except == Some(f.path))
    ensures AllUsed(spans, found + [f], None)
  {
    forall s | 0 <= s < |spans| ensures HasValue(found + [f], spans[s].path) {
      if HasValue(found, spans[s].path) {
        var i :| 0 <= i < |found| && found[i].path == spans[s].path;
        assert (found + [f])[i].path == spans[s].path;
      } else {
        assert (found + [f])[|found|].path == spans[s].path;
      }
    }
  }

  // ------------------------------------------------- recording for the targets

  /** The paths a value at q was recorded for, after the first n open wildcard paths. */
  ghost predicate TargetsUpTo(jwild: seq<OpenWild>, own: Option<nat>, q: Bytes, n: nat, targets: set<Bytes>)
    requires n <= |jwild|
  {
    forall p :: p in targets <==> (own.Some? && p == q) || exists i :: 0 <= i < n && p == Paths.WildPath(jwild[i].base)
  }

  lemma {:induction false} TargetsAll(known: Paths.Index, jwild: seq<OpenWild>, own: Option<nat>, q: Bytes,
                                      targets: set<Bytes>)
    requires OpenFor(known.wilds, jwild, q) && TargetsUpTo(jwild, own, q, |jwild|, targets)
    requires own.Some? <==> q in known.paths
    ensures AreTargets(known, q, targets)
  {
    forall p ensures p in targets <==> IsTarget(known, q, p) {
      if p in targets && !(own.Some? && p == q) {
        var i :| 0 <= i < |jwild| && p == Paths.WildPath(jwild[i].base);
        assert IsOpen(jwild, jwild[i].base);
      }
      if IsTarget(known, q, p) && !(p == q && q in known.paths) {
        var b :| Opens(known.wilds, q, b) && p == Paths.WildPath(b);
        assert IsOpen(jwild, b);
      }
    }
  }

  lemma {:induction false} WildPathInjective(a: Bytes, b: Bytes)
    requires Paths.WildPath(a) == Paths.WildPath(b)
    ensures a == b
  {
    assert |a| == |b|;
    assert Paths.WildPath(a)[..|a|] == a && Paths.WildPath(b)[..|b|] == b;
  }

  lemma {:induction false} NextTarget(jwild: seq<OpenWild>, own: Option<nat>, q: Bytes, n: nat, targets: set<Bytes>)
    requires n < |jwild| && TargetsUpTo(jwild, own, q, n, targets)
    requires forall i, j :: 0 <= i < j < |jwild| ==> jwild[i].base != jwild[j].base
    ensures TargetsUpTo(jwild, own, q, n + 1, targets + {Paths.WildPath(jwild[n].base)})
    ensures Paths.WildPath(jwild[n].base) in targets <==> own.Some? && Paths.WildPath(jwild[n].base) == q
  {
    forall i | 0 <= i < n ensures Paths.WildPath(jwild[i].base) != Paths.WildPath(jwild[n].base) {
      if Paths.WildPath(jwild[i].base) == Paths.WildPath(jwild[n].base) {
        WildPathInjective(jwild[i].base, jwild[n].base);
      }
    }
  }

  lemma {:induction false} RecordMore(a: seq<Found>, b: seq<Found>, v: Bytes, targets: set<Bytes>, p: Bytes)
    requires RecordedFor(a, b, v, targets) && p !in targets
    ensures RecordedFor(a, b + [Found(p, v)], v, targets + {p})
  {
    forall r ensures ValuesOf(b + [Found(p, v)], r) == ValuesOf(a, r) + if r in targets + {p} then [v] else [] {
      ValuesOfSnoc(b, Found(p, v), r);
    }
  }

  /** An open wildcard path keeps the span it was given. */
  lemma {:induction false} KeepSpan(spans: seq<ChainedSpan>, jwild: seq<OpenWild>, i: nat, s: nat)
    requires WildSpans(spans, jwild) && i < |jwild| && s < |spans| && spans[s].path == Paths.WildPath(jwild[i].base)
    ensures var more := jwild[i := OpenWild(jwild[i].base, Some(s))]; WildSpans(spans, more) && SameBases(jwild, more)
  {
  }

  class JsonParser {
    const w: World
    const known: Paths.Index
    const toks: seq<Token>
    const table: SpanTable
    var pos: nat
    var jvals: seq<JVal>
    var jwild: seq<OpenWild>
    ghost var found: seq<Found>

    ghost predicate Valid()
      reads this, table
    {
      && pos <= |toks| && Paths.Valid(known) && table.Valid()
      && Recorded(table.spans, jvals, found) && WildSpans(table.spans, jwild)
    }

    constructor (w: World, known: Paths.Index, toks: seq<Token>, table: SpanTable)
      requires Paths.Valid(known) && table.Valid() && table.spans == []
      ensures Valid() && this.w == w && this.known == known && this.toks == toks && this.table == table
      ensures pos == 0 && jwild == [] && found == []
    {
      this.w, this.known, this.toks, this.table := w, known, toks, table;
      pos, jvals, jwild, found := 0, [], [], [];
    }

    /** The span of a path, added if necessary. */
    method SpanFor(path: Bytes) returns (s: nat)
      requires Valid()
      modifies table
      ensures Valid() && s < |table.spans| && table.spans[s].path == path && old(table.spans) <= table.spans
      ensures AllUsed(old(table.spans), found, None) ==> AllUsed(table.spans, found, Some(path))
    {
      ghost var before := table.spans;
      s := table.JsonSpan(path);
      NewSpansOnly(before, table.spans, path, jvals, found, jwild);
    }

    /** span: the span of the path, if some condition refers to it. */
    method SpanOf(path: Bytes) returns (s: Option<nat>)
      requires Valid() && AllUsed(table.spans, found, None)
      modifies table
      ensures Valid() && AllUsed(table.spans, found, if s.Some? then Some(path) else None)
      ensures s.Some? <==> path in known.paths
      ensures s.Some? ==> s.value < |table.spans| && table.spans[s.value].path == path
    {
      if path !in known.paths {
        return None;
      }
      var t := SpanFor(path);
      return Some(t);
    }

    method Append(s: nat, v: Bytes, ghost except: Option<Bytes>)
      requires Valid() && s < |table.spans| && AllUsed(table.spans, found, except)
      requires except.None? || except == Some(table.spans[s].path)
      modifies `jvals, `found
      ensures Valid() && found == old(found) + [Found(table.spans[s].path, v)] && AllUsed(table.spans, found, None)
    {
      UsedMore(table.spans, found, Found(table.spans[s].path, v), except);
      jvals := jvals + [JVal(s, v)];
      found := found + [Found(table.spans[s].path, v)];
    }

    /** record: adds the value at q to its own span, if it has one, and to the spans of the open wildcard paths. */
    method Record(own: Option<nat>, q: Bytes, v: Bytes) returns (ghost targets: set<Bytes>)
      requires Valid() && OpenFor(known.wilds, jwild, q) && (own.Some? <==> q in known.paths)
      requires own.Some? ==> own.value < |table.spans| && table.spans[own.value].path == q
      requires AllUsed(table.spans, found, if own.Some? then Some(q) else None)
      modifies `jvals, `jwild, `found, table
      ensures Valid() && SameBases(old(jwild), jwild) && AllUsed(table.spans, found, None)
      ensures RecordedFor(old(found), found, v, targets) && AreTargets(known, q, targets)
    {
      ghost var before := found;
      targets := {};
      if own.Some? {
        Append(own.value, v, Some(q));
        RecordMore(before, before, v, {}, q);
        targets := {q};
      }
      for i := 0 to |jwild|
        invariant Valid() && SameBases(old(jwild), jwild) && AllUsed(table.spans, found, None)
        invariant own.Some? ==> own.value < |table.spans| && table.spans[own.value].path == q
        invariant TargetsUpTo(old(jwild), own, q, i, targets) && RecordedFor(before, found, v, targets)
      {
        NextTarget(old(jwild), own, q, i, targets);
        targets := RecordWild(i, own, q, v, before, targets);
      }
      TargetsAll(known, old(jwild), own, q, targets);
    }

    /** One open wildcard path. Its span may have to be added first. */
    method RecordWild(i: nat, own: Option<nat>, q: Bytes, v: Bytes, ghost before: seq<Found>, ghost targets: set<Bytes>)
      returns (ghost targets': set<Bytes>)
      requires Valid() && i < |jwild| && AllUsed(table.spans, found, None) && RecordedFor(before, found, v, targets)
      requires own.Some? ==> own.value < |table.spans| && table.spans[own.value].path == q
      requires Paths.WildPath(jwild[i].base) in targets <==> own.Some? && Paths.WildPath(jwild[i].base) == q
      modifies `jvals, `jwild, `found, table
      ensures Valid() && SameBases(old(jwild), jwild) && AllUsed(table.spans, found, None)
      ensures own.Some? ==> own.value < |table.spans| && table.spans[own.value].path == q
      ensures targets' == targets + {Paths.WildPath(old(jwild)[i].base)} && RecordedFor(before, found, v, targets')
    {
      ghost var spans, p := table.spans, Paths.WildPath(jwild[i].base);
      var s := WildSpan(i);
      if Some(s) == own {
        StillUsed(spans, table.spans, found, s);
      }
      targets' := AppendUnless(s, own, q, v, before, targets);
    }

    /** Adds the value to span s, unless that is the own span of the value, which has it already. */
    method AppendUnless(s: nat, own: Option<nat>, q: Bytes, v: Bytes, ghost before: seq<Found>,
                        ghost targets: set<Bytes>)
      returns (ghost targets': set<Bytes>)
      requires Valid() && s < |table.spans| && RecordedFor(before, found, v, targets)
      requires AllUsed(table.spans, found, if Some(s) == own then None else Some(table.spans[s].path))
      requires own.Some? ==> own.value < |table.spans| && table.spans[own.value].path == q
      requires table.spans[s].path in targets <==> own.Some? && table.spans[s].path == q
      modifies `jvals, `found
      ensures Valid() && AllUsed(table.spans, found, None)
      ensures targets' == targets + {table.spans[s].path} && RecordedFor(before, found, v, targets')
    {
      ghost var p := table.spans[s].path;
      targets' := targets + {p};
      if Some(s) != own {
        SpansDiffer(table.hash, table.slots, table.spans, s, own, q);
        RecordMore(before, found, v, targets, p);
        Append(s, v, Some(p));
      } else {
        AlreadyTarget(targets, p);
      }
    }

    /** The span of an open wildcard path. */
    method WildSpan(i: nat) returns (s: nat)
      requires Valid() && i < |jwild|
      modifies `jwild, table
      ensures Valid() && SameBases(old(jwild), jwild)
      ensures s < |table.spans| && table.spans[s].path == Paths.WildPath(jwild[i].base)
      ensures old(table.spans) <= table.spans
      ensures AllUsed(old(table.spans), found, None) ==> AllUsed(table.spans, found, Some(table.spans[s].path))
    {
      if jwild[i].span.Some? {
        return jwild[i].span.value;
      }
      s := SpanFor(Paths.WildPath(jwild[i].base));
      KeepSpan(table.spans, jwild, i, s);
      jwild := jwild[i := OpenWild(jwild[i].base, Some(s))];
    }

    /** Between two values: every span has a value. */
    ghost predicate Ready()
      reads this, table
    {
      Valid() && AllUsed(table.spans, found, None)
    }

    /** A value at path is recorded if record is true; otherwise no condition refers to paths that begin with path. */
    ghost predicate Context(record: bool, path: Bytes)
      reads this
    {
      if record then OpenFor(known.wilds, jwild, path) else Useless(known, path)
    }

    /** raw, str and wildStr: records a value at path. */
    method RecordValue(path: Bytes, record: bool, s: Bytes, ghost place: Bytes)
      requires Ready() && Context(record, place) && (record ==> path == place)
      modifies `jvals, `jwild, `found, table
      ensures Ready() && SameBases(old(jwild), jwild)
      ensures Gain(w, known.paths, old(found), found, [Rules.Property(place, [s])])
    {
      ghost var before := found;
      if !record {
        GainUseless(w, known, found, place, s);
        return;
      }
      var own := SpanOf(path);
      if |jwild| > 0 {
        ghost var targets := Record(own, path, w.fold(s));
        GainRecorded(w, known, before, found, path, s, targets);
      } else {
        ghost var targets := if own.Some? then {path} else {};
        TargetsAll(known, jwild, own, path, targets);
        if own.Some? {
          RecordMore(before, before, w.fold(s), {}, path);
          Append(own.value, w.fold(s), Some(path));
        }
        GainRecorded(w, known, before, found, path, s, targets);
      }
    }

    /**
     * openWild: opens the wildcard path whose part before ".*" ends at position i of path, if some
     * condition refers to it.
     */
    method OpenDot(path: Bytes, i: nat)
      requires Ready() && i < |path| && OpenFor(known.wilds, jwild, path[..i])
      modifies `jwild
      ensures Ready() && OpenFor(known.wilds, jwild, path[..i + 1]) && old(jwild) <= jwild
    {
      OpenNext(known.wilds, jwild, path, i);
      if path[i] == DOT && path[..i] in known.wilds {
        jwild := jwild + [OpenWild(path[..i], None)];
      }
    }

    /** openWilds: opens the wildcard paths that end at a dot of path, from position from on. */
    method OpenWilds(path: Bytes, from: nat)
      requires Ready() && from <= |path| && OpenFor(known.wilds, jwild, path[..from])
      modifies `jwild
      ensures Ready() && OpenFor(known.wilds, jwild, path) && old(jwild) <= jwild
    {
      for i := from to |path|
        invariant Ready() && OpenFor(known.wilds, jwild, path[..i]) && old(jwild) <= jwild
      {
        OpenDot(path, i);
      }
      TakeAll(path);
    }

    /**
     * value: parses the value at pos, inside depth objects and arrays. path is
     * kept up to date only while values are recorded; place is the path of the
     * value in any case.
     */
    method Value(path: Bytes, depth: nat, record: bool, ghost place: Bytes) returns (ok: bool)
      requires Ready() && Context(record, place) && (record ==> path == place)
      modifies this, table
      ensures var r := ParseValue(toks[old(pos)..], depth);
              && (ok <==> r.Parsed?)
              && (ok ==> AfterValue(old(pos), r.rest, old(found), old(jwild), Flatten(r.value, place)))
      decreases |toks| - pos, 3
    {
      if pos >= |toks| {
        return false;
      }
      SliceNext(toks, pos);
      FirstToken(toks[pos..], depth, place);
      match toks[pos]
      case OpenBrace =>
        if depth >= MAX_JSON_DEPTH {
          return false;
        }
        var inner := record && (|jwild| > 0 || path in known.prefixes);
        PrunedContext(known, jwild, place, record, inner);
        ok := Object(path, depth + 1, inner, false, place);
      case OpenBracket =>
        if depth >= MAX_JSON_DEPTH {
          return false;
        }
        ok := Array(path, depth + 1, record, place);
      case Text(s) =>
        Scalar(path, record, s, place);
        ok := true;
      case Word(s) =>
        Scalar(path, record, s, place);
        ok := true;
      case NullWord =>
        GainNothing(w, known.paths, found);
        pos := pos + 1;
        ok := true;
      case _ =>
        ok := false;
    }

    /** str, literal and number. */
    method Scalar(path: Bytes, record: bool, s: Bytes, ghost place: Bytes)
      requires Ready() && pos < |toks| && Context(record, place) && (record ==> path == place)
      modifies `pos, `jvals, `jwild, `found, table
      ensures AfterValue(old(pos), toks[old(pos) + 1..], old(found), old(jwild), [Rules.Property(place, [s])])
    {
      RecordValue(path, record, s, place);
      pos := pos + 1;
    }

    /** array: parses the array whose bracket is at pos. Its elements share its path. */
    method Array(path: Bytes, depth: nat, record: bool, ghost place: Bytes) returns (ok: bool)
      requires Ready() && pos < |toks| && Context(record, place) && (record ==> path == place)
      modifies this, table
      ensures var r := ParseArray(toks[old(pos) + 1..], depth);
              && (ok <==> r.Parsed?)
              && (ok ==> AfterValue(old(pos), r.rest, old(found), old(jwild), FlattenItems(r.value, place)))
      decreases |toks| - pos, 2
    {
      ghost var start, before, wilds := pos, found, jwild;
      pos := pos + 1;
      ghost var ts := toks[pos..];
      if pos < |toks| && toks[pos] == CloseBracket {
        GainNothing(w, known.paths, before);
        pos := pos + 1;
        return true;
      }
      ok := Items(path, depth, record, place);
    }

    /** The loop over the elements of an array. */
    method Items(path: Bytes, depth: nat, record: bool, ghost place: Bytes) returns (ok: bool)
      requires Ready() && Context(record, place) && (record ==> path == place)
      modifies this, table
      ensures var r := ParseItems(toks[old(pos)..], depth);
              && (ok <==> r.Parsed?)
              && (ok ==> AfterValue(old(pos), r.rest, old(found), old(jwild), FlattenItems(r.value, place)))
      decreases |toks| - pos, 6
    {
      ghost var start, ts, before, wilds := pos, toks[pos..], found, jwild;
      ghost var items: seq<Json> := [];
      GainNothing(w, known.paths, before);
      PrependTwice([], JNull, ParseItems(ts, depth));
      ok := true;
      var more := true;
      while more
        invariant (ok ==> start <= pos <= |toks|) && (more ==> ok)
        invariant more ==> InItems(start, ts, depth, before, wilds, record, place, items)
        invariant !ok ==> ParseItems(ts, depth).Fails?
        invariant ok && !more ==> start < pos && ParseItems(ts, depth) == Parsed(items, toks[pos..])
        invariant ok && !more ==> Between(start, before, wilds, record, place, FlattenItems(items, place))
        decreases more, |toks| - pos
      {
        ok, more, items := OneItem(path, depth, record, place, start, ts, before, wilds, items);
      }
    }

    /** Between two elements of an array. */
    ghost predicate InItems(start: nat, ts: seq<Token>, depth: nat, before: seq<Found>, wilds: seq<OpenWild>,
                            record: bool, place: Bytes, items: seq<Json>)
      reads this, table
    {
      Between(start, before, wilds, record, place, FlattenItems(items, place)) &&
      ItemsFrom(ts, depth, items, toks[pos..])
    }

    /** The event was recorded since start, and more can be. */
    ghost predicate Between(start: nat, before: seq<Found>, wilds: seq<OpenWild>, record: bool, place: Bytes,
                            event: Rules.Event)
      reads this, table
    {
      && start <= pos && Ready() && SameBases(wilds, jwild) && Context(record, place)
      && Gain(w, known.paths, before, found, event)
    }

    /** The comma or the closing token after an element or a member. */
    method Separator(close: Token, ghost start: nat, ghost before: seq<Found>, ghost wilds: seq<OpenWild>,
                     ghost record: bool, ghost place: Bytes, ghost event: Rules.Event) returns (ok: bool, more: bool)
      requires Between(start, before, wilds, record, place, event) && close != Comma
      modifies `pos
      ensures var ts := toks[old(pos)..];
              && (ok <==> ts != [] && ts[0] in {close, Comma}) && (more <==> ts != [] && ts[0] == Comma)
              && (ok ==> old(pos) < pos <= |toks| && toks[pos..] == ts[1..])
      ensures Between(start, before, wilds, record, place, event)
    {
      if pos >= |toks| {
        return false, false;
      }
      SliceNext(toks, pos);
      ok, more := toks[pos] == close || toks[pos] == Comma, toks[pos] == Comma;
      if ok {
        pos := pos + 1;
      }
    }

    /** One more element. */
    method ItemValue(path: Bytes, depth: nat, record: bool, ghost place: Bytes, ghost start: nat,
                     ghost before: seq<Found>,
                     ghost wilds: seq<OpenWild>, ghost items: seq<Json>) returns (ok: bool)
      requires Between(start, before, wilds, record, place, FlattenItems(items, place)) && (record ==> path == place)
      modifies this, table
      ensures var r := ParseValue(toks[old(pos)..], depth);
              && (ok <==> r.Parsed?)
              && (ok ==> old(pos) < pos <= |toks| && toks[pos..] == r.rest &&
                         Between(start, before, wilds, record, place, FlattenItems(items + [r.value], place)))
      decreases |toks| - pos, 4
    {
      ghost var r := ParseValue(toks[pos..], depth);
      ghost var mid, open := found, jwild;
      ok := Value(path, depth, record, place);
      if ok {
        ItemFlattened(w, known.paths, before, mid, found, items, r.value, place);
        SameContext(known, open, jwild, record, place);
      }
    }

    method OneItem(path: Bytes, depth: nat, record: bool, ghost place: Bytes, ghost start: nat, ghost ts: seq<Token>,
                   ghost before: seq<Found>, ghost wilds: seq<OpenWild>, ghost items: seq<Json>)
      returns (ok: bool, more: bool, ghost items': seq<Json>)
      requires InItems(start, ts, depth, before, wilds, record, place, items) && (record ==> path == place)
      modifies this, table
      ensures (ok ==> old(pos) < pos <= |toks|) && (more ==> ok)
      ensures more ==> InItems(start, ts, depth, before, wilds, record, place, items')
      ensures !ok ==> ParseItems(ts, depth).Fails?
      ensures ok && !more ==>
                ParseItems(ts, depth) == Parsed(items', toks[pos..]) &&
                Between(start, before, wilds, record, place, FlattenItems(items', place))
      decreases |toks| - pos, 5
    {
      ghost var r := ParseValue(toks[pos..], depth);
      OneItemMore(ts, depth, items, toks[pos..]);
      items' := items;
      ok := ItemValue(path, depth, record, place, start, before, wilds, items);
      if !ok {
        return false, false, items;
      }
      items' := items + [r.value];
      ok, more := Separator(CloseBracket, start, before, wilds, record, place, FlattenItems(items', place));
    }

    /**
     * object: parses the object whose brace is at pos. The keys of the root are
     * paths on their own, all others are appended to place and a dot.
     */
    method Object(path: Bytes, depth: nat, record: bool, root: bool, ghost place: Bytes) returns (ok: bool)
      requires Ready() && pos < |toks| && (record ==> path == place)
      requires if record then OpenFor(known.wilds, jwild, place) else Useless(known, PrefixOf(root, place))
      requires root ==> place == []
      modifies this, table
      ensures var r := ParseObject(toks[old(pos) + 1..], depth);
              && (ok <==> r.Parsed?)
              && (ok ==> AfterValue(old(pos), r.rest, old(found), old(jwild),
                                    FlattenMembers(r.value, PrefixOf(root, place))))
      decreases |toks| - pos, 2
    {
      ghost var start, before, wilds := pos, found, jwild;
      pos := pos + 1;
      if pos < |toks| && toks[pos] == CloseBrace {
        GainNothing(w, known.paths, before);
        pos := pos + 1;
        return true;
      }
      var outer := |jwild|;
      if record && !root {
        var prefix := path + [DOT];
        assert prefix[..|path|] == path && prefix[..|path| + 1] == prefix;
        OpenDot(prefix, |path|);
      }
      ok := Members(if root then [] else path + [DOT], depth, record, PrefixOf(root, place));
      if ok {
        TruncatedWilds(table.spans, wilds, jwild);
        jwild := jwild[..outer];
      }
    }

    /** The loop over the members of an object, whose paths begin with prefix. */
    method Members(path: Bytes, depth: nat, record: bool, ghost prefix: Bytes) returns (ok: bool)
      requires Ready() && Context(record, prefix) && (record ==> path == prefix)
      modifies this, table
      ensures var r := ParseMembers(toks[old(pos)..], depth);
              && (ok <==> r.Parsed?)
              && (ok ==> AfterValue(old(pos), r.rest, old(found), old(jwild), FlattenMembers(r.value, prefix)))
      decreases |toks| - pos, 7
    {
      ghost var start, ts, before, wilds := pos, toks[pos..], found, jwild;
      ghost var members: seq<JsonGrammar.Member> := [];
      GainNothing(w, known.paths, before);
      PrependTwice([], JsonGrammar.Member([], JNull), ParseMembers(ts, depth));
      ok := true;
      var more := true;
      while more
        invariant (ok ==> start <= pos <= |toks|) && (more ==> ok)
        invariant more ==> InMembers(start, ts, depth, before, wilds, record, prefix, members)
        invariant !ok ==> ParseMembers(ts, depth).Fails?
        invariant ok && !more ==> start < pos && ParseMembers(ts, depth) == Parsed(members, toks[pos..])
        invariant ok && !more ==> Between(start, before, wilds, record, prefix, FlattenMembers(members, prefix))
        decreases more, |toks| - pos
      {
        ok, more, members := OneMember(path, depth, record, prefix, start, ts, before, wilds, members);
      }
    }

    /** Between two members of an object. */
    ghost predicate InMembers(start: nat, ts: seq<Token>, depth: nat, before: seq<Found>, wilds: seq<OpenWild>,
                              record: bool, prefix: Bytes, members: seq<JsonGrammar.Member>)
      reads this, table
    {
      Between(start, before, wilds, record, prefix, FlattenMembers(members, prefix)) &&
      MembersFrom(ts, depth, members, toks[pos..])
    }

    /** One more member. */
    method NextMember(path: Bytes, depth: nat, record: bool, ghost prefix: Bytes, ghost start: nat,
                      ghost before: seq<Found>,
                      ghost wilds: seq<OpenWild>, ghost members: seq<JsonGrammar.Member>) returns (ok: bool)
      requires Between(start, before, wilds, record, prefix, FlattenMembers(members, prefix))
      requires record ==> path == prefix
      modifies this, table
      ensures var r := FirstMember(toks[old(pos)..], depth);
              && (ok <==> r.Parsed?)
              && (ok ==> old(pos) < pos <= |toks| && toks[pos..] == r.rest &&
                         Between(start, before, wilds, record, prefix, FlattenMembers(members + [r.value], prefix)))
      decreases |toks| - pos, 5
    {
      ghost var mid, open, m := found, jwild, JsonGrammar.Member([], JNull);
      ok, m := MemberValue(path, depth, record, prefix);
      if ok {
        MemberFlattened(w, known.paths, before, mid, found, members, m, prefix);
        SameContext(known, open, jwild, record, prefix);
      }
    }

    method OneMember(path: Bytes, depth: nat, record: bool, ghost prefix: Bytes, ghost start: nat, ghost ts: seq<Token>,
                     ghost before: seq<Found>, ghost wilds: seq<OpenWild>, ghost members: seq<JsonGrammar.Member>)
      returns (ok: bool, more: bool, ghost members': seq<JsonGrammar.Member>)
      requires InMembers(start, ts, depth, before, wilds, record, prefix, members) && (record ==> path == prefix)
      modifies this, table
      ensures (ok ==> old(pos) < pos <= |toks|) && (more ==> ok)
      ensures more ==> InMembers(start, ts, depth, before, wilds, record, prefix, members')
      ensures !ok ==> ParseMembers(ts, depth).Fails?
      ensures ok && !more ==>
                ParseMembers(ts, depth) == Parsed(members', toks[pos..]) &&
                Between(start, before, wilds, record, prefix, FlattenMembers(members', prefix))
      decreases |toks| - pos, 6
    {
      ghost var r := FirstMember(toks[pos..], depth);
      OneMemberMore(ts, depth, members, toks[pos..]);
      members' := members;
      ok := NextMember(path, depth, record, prefix, start, before, wilds, members);
      if !ok {
        return false, false, members;
      }
      members' := members + [r.value];
      ok, more := Separator(CloseBrace, start, before, wilds, record, prefix, FlattenMembers(members', prefix));
    }

    /** A key, a colon and a value. The wildcard paths below a dot in the key are open only for this value. */
    method MemberValue(path: Bytes, depth: nat, record: bool, ghost prefix: Bytes)
      returns (ok: bool, ghost m: JsonGrammar.Member)
      requires Ready() && Context(record, prefix) && (record ==> path == prefix)
      modifies this, table
      ensures ok <==> FirstMember(toks[old(pos)..], depth).Parsed?
      ensures ok ==> var r := FirstMember(toks[old(pos)..], depth);
                     m == r.value &&
                     AfterValue(old(pos), r.rest, old(found), old(jwild), Flatten(m.value, prefix + m.key))
      decreases |toks| - pos, 4
    {
      ghost var start, wilds := pos, jwild;
      m := JsonGrammar.Member([], JNull);
      if pos >= |toks| || !toks[pos].Text? {
        return false, m;
      }
      assert toks[pos..][0] == toks[pos];
      var key := toks[pos].s;
      var open, child := |jwild|, path;
      if record {
        child := path + key;
        assert child[..|path|] == path;
        OpenWilds(child, |path|);
      } else {
        UselessLonger(known, prefix, prefix + key);
      }
      pos := pos + 1;
      if pos >= |toks| || toks[pos] != Colon {
        return false, m;
      }
      pos := pos + 1;
      assert toks[start..][1] == Colon && toks[start..][2..] == toks[pos..];
      m := if ParseValue(toks[pos..], depth).Parsed? then JsonGrammar.Member(key, ParseValue(toks[pos..], depth).value)
           else m;
      ok := Value(child, depth, record, prefix + key);
      if ok {
        TruncatedWilds(table.spans, wilds, jwild);
        jwild := jwild[..open];
      }
    }

    /** The event is an object, and nothing follows it. */
    method Event() returns (ok: bool)
      requires Ready() && pos == 0 && jwild == [] && found == []
      modifies this, table
      ensures ok <==> EventMembers(toks).Some?
      ensures ok ==> Ready() && Gain(w, known.paths, [], found, FlattenMembers(EventMembers(toks).value, []))
    {
      if |toks| == 0 || toks[0] != OpenBrace {
        return false;
      }
      NothingOpens(known.wilds);
      ok := Object([], 1, true, true, []);
      if ok && pos != |toks| {
        return false;
      }
    }

    /** The tokens up to rest were parsed, and what they stand for was recorded. */
    ghost predicate AfterValue(start: nat, rest: seq<Token>, before: seq<Found>, wilds: seq<OpenWild>,
                               event: Rules.Event)
      reads this, table
    {
      Ready() && start < pos && toks[pos..] == rest && SameBases(wilds, jwild) &&
      Gain(w, known.paths, before, found, event)
    }
  }

  ghost predicate ParsedAs(r: Parsed<Json>, rest: seq<Token>, place: Bytes, event: Rules.Event) {
    r.Parsed? && r.rest == rest && Flatten(r.value, place) == event
  }

  /** What the first token of a value decides. */
  lemma {:induction false} FirstToken(ts: seq<Token>, depth: nat, place: Bytes)
    requires ts != []
    ensures var r := ParseValue(ts, depth);
            match ts[0]
            case OpenBrace =>
              var members := ParseObject(ts[1..], depth + 1);
              if depth >= MAX_JSON_DEPTH || members.Fails? then r.Fails?
              else ParsedAs(r, members.rest, place, FlattenMembers(members.value, PrefixOf(false, place)))
            case OpenBracket =>
              var items := ParseArray(ts[1..], depth + 1);
              if depth >= MAX_JSON_DEPTH || items.Fails? then r.Fails?
              else ParsedAs(r, items.rest, place, FlattenItems(items.value, place))
            case Text(s) => ParsedAs(r, ts[1..], place, [Rules.Property(place, [s])])
            case Word(s) => ParsedAs(r, ts[1..], place, [Rules.Property(place, [s])])
            case NullWord => ParsedAs(r, ts[1..], place, [])
            case _ => r.Fails?
  {
  }

  lemma {:induction false} SliceNext(toks: seq<Token>, pos: nat)
    requires pos < |toks|
    ensures |toks[pos..]| > 0 && toks[pos..][0] == toks[pos] && toks[pos..][1..] == toks[pos + 1..]
  {
  }

  function Prepend<T>(first: seq<T>, r: Parsed<seq<T>>): Parsed<seq<T>> {
    match r
    case Fails => Fails
    case Parsed(more, end) => Parsed(first + more, end)
  }

  lemma {:induction false} PrependTwice<T>(a: seq<T>, x: T, r: Parsed<seq<T>>)
    ensures Prepend([], r) == r && Prepend(a, Prepend([x], r)) == Prepend(a + [x], r)
  {
    if r.Parsed? {
      assert [] + r.value == r.value && a + ([x] + r.value) == a + [x] + r.value;
    }
  }

  /** The items of an array from the token cur on, after some items. */
  ghost predicate ItemsFrom(ts: seq<Token>, depth: nat, items: seq<Json>, cur: seq<Token>) {
    ParseItems(ts, depth) == Prepend(items, ParseItems(cur, depth))
  }

  lemma {:induction false} OneItemMore(ts: seq<Token>, depth: nat, items: seq<Json>, cur: seq<Token>)
    requires ItemsFrom(ts, depth, items, cur)
    ensures var r := ParseValue(cur, depth);
            if r.Fails? || r.rest == [] || r.rest[0] !in {CloseBracket, Comma} then ParseItems(ts, depth).Fails?
            else if r.rest[0] == CloseBracket then ParseItems(ts, depth) == Parsed(items + [r.value], r.rest[1..])
            else ItemsFrom(ts, depth, items + [r.value], r.rest[1..])
  {
    var r := ParseValue(cur, depth);
    if r.Parsed? && r.rest != [] && r.rest[0] == Comma {
      assert ParseItems(cur, depth) == Prepend([r.value], ParseItems(r.rest[1..], depth));
      PrependTwice(items, r.value, ParseItems(r.rest[1..], depth));
    }
  }

  /** The members of the object the tokens stand for. */
  function EventMembers(toks: seq<Token>): Option<seq<JsonGrammar.Member>> {
    if |toks| == 0 || toks[0] != OpenBrace then None
    else
      match ParseObject(toks[1..], 1)
      case Fails => None
      case Parsed(members, rest) => if rest == [] then Some(members) else None
  }

  /** Exactly the printed objects are events, up to the nesting limit. */
  lemma {:induction false} EventsArePrinted(toks: seq<Token>, members: seq<JsonGrammar.Member>)
    ensures EventMembers(toks) == Some(members) <==>
            toks == Print(JObject(members)) && Depth(JObject(members)) <= MAX_JSON_DEPTH
  {
    if EventMembers(toks) == Some(members) {
      PrintParsedObject(toks[1..], 1);
      assert toks == [OpenBrace] + toks[1..];
    }
    if toks == Print(JObject(members)) && Depth(JObject(members)) <= MAX_JSON_DEPTH {
      ParsePrinted(JObject(members), [], 0);
      assert toks + [] == toks;
    }
  }

  /** The members the text has, if its tokens are lexed. */
  function LexedMembers(lexed: Option<seq<Token>>): Option<seq<JsonGrammar.Member>> {
    if lexed.None? then None else EventMembers(lexed.value)
  }

  /** A text is that of one object at most, which its tokens have as members. */
  lemma {:induction false} LexedObject(decode: JsonText.Decode, data: Bytes, lexed: Option<seq<Token>>,
                                       members: seq<JsonGrammar.Member>)
    requires forall ts :: JsonText.Spells(decode, data, ts) <==> lexed == Some(ts)
    ensures JsonText.IsObjectText(decode, data, members) <==> LexedMembers(lexed) == Some(members)
  {
    assert JsonText.Spells(decode, data, Print(JObject(members))) <==> lexed == Some(Print(JObject(members)));
    if lexed.Some? {
      EventsArePrinted(lexed.value, members);
    }
  }

  lemma {:induction false} NothingOpens(wilds: set<Bytes>)
    ensures OpenFor(wilds, [], [])
  {
  }

  function PrefixOf(root: bool, place: Bytes): Bytes {
    if root then [] else place + [DOT]
  }

  /** The first member of a nonempty object. */
  function FirstMember(ts: seq<Token>, depth: nat): Parsed<JsonGrammar.Member> {
    if |ts| < 2 || !ts[0].Text? || ts[1] != Colon then Fails
    else
      match ParseValue(ts[2..], depth)
      case Fails => Fails
      case Parsed(j, rest) => Parsed(JsonGrammar.Member(ts[0].s, j), rest)
  }

  ghost predicate MembersFrom(ts: seq<Token>, depth: nat, members: seq<JsonGrammar.Member>, cur: seq<Token>) {
    ParseMembers(ts, depth) == Prepend(members, ParseMembers(cur, depth))
  }

  lemma {:induction false} OneMemberMore(ts: seq<Token>, depth: nat, members: seq<JsonGrammar.Member>, cur: seq<Token>)
    requires MembersFrom(ts, depth, members, cur)
    ensures var r := FirstMember(cur, depth);
            if r.Fails? || r.rest == [] || r.rest[0] !in {CloseBrace, Comma} then ParseMembers(ts, depth).Fails?
            else if r.rest[0] == CloseBrace then ParseMembers(ts, depth) == Parsed(members + [r.value], r.rest[1..])
            else MembersFrom(ts, depth, members + [r.value], r.rest[1..])
  {
    var r := FirstMember(cur, depth);
    if r.Parsed? && r.rest != [] && r.rest[0] == Comma {
      assert ParseMembers(cur, depth) == Prepend([r.value], ParseMembers(r.rest[1..], depth));
      PrependTwice(members, r.value, ParseMembers(r.rest[1..], depth));
    }
  }

  lemma {:induction false} MemberFlattened(w: World, paths: set<Bytes>, a: seq<Found>, b: seq<Found>, c: seq<Found>,
                                           members: seq<JsonGrammar.Member>, m: JsonGrammar.Member, prefix: Bytes)
    requires Gain(w, paths, a, b, FlattenMembers(members, prefix))
    requires Gain(w, paths, b, c, Flatten(m.value, prefix + m.key))
    ensures Gain(w, paths, a, c, FlattenMembers(members + [m], prefix))
  {
    GainTrans(w, paths, a, b, c, FlattenMembers(members, prefix), Flatten(m.value, prefix + m.key));
    assert (members + [m])[..|members|] == members;
  }

  /** Closing the wildcard paths opened since leaves those open before. */
  lemma {:induction false} TruncatedWilds(spans: seq<ChainedSpan>, wilds: seq<OpenWild>, jwild: seq<OpenWild>)
    requires |wilds| <= |jwild| && WildSpans(spans, jwild)
    requires forall i :: 0 <= i < |wilds| ==> jwild[i].base == wilds[i].base
    ensures WildSpans(spans, jwild[..|wilds|]) && SameBases(wilds, jwild[..|wilds|])
  {
  }

  lemma {:induction false} ItemFlattened(w: World, paths: set<Bytes>, a: seq<Found>, b: seq<Found>, c: seq<Found>,
                                         items: seq<Json>, j: Json, path: Bytes)
    requires Gain(w, paths, a, b, FlattenItems(items, path)) && Gain(w, paths, b, c, Flatten(j, path))
    ensures Gain(w, paths, a, c, FlattenItems(items + [j], path))
  {
    GainTrans(w, paths, a, b, c, FlattenItems(items, path), Flatten(j, path));
    assert (items + [j])[..|items|] == items;
  }

  lemma {:induction false} SameContext(known: Paths.Index, a: seq<OpenWild>, b: seq<OpenWild>, record: bool,
                                       path: Bytes)
    requires SameBases(a, b) && (record ==> OpenFor(known.wilds, a, path))
    ensures record ==> OpenFor(known.wilds, b, path)
  {
    if record {
      SameBasesOpen(known.wilds, a, b, path);
    }
  }

  /** An object is not recorded only if nothing refers below it. */
  lemma {:induction false} PrunedContext(known: Paths.Index, jwild: seq<OpenWild>, path: Bytes, record: bool,
                                         inner: bool)
    requires Paths.Valid(known) && (if record then OpenFor(known.wilds, jwild, path) else Useless(known, path))
    requires inner <==> record && (|jwild| > 0 || path in known.prefixes)
    ensures !inner ==> Useless(known, path + [DOT])
  {
    if !record {
      UselessLonger(known, path, path + [DOT]);
    } else if !inner {
      assert forall b :: !IsOpen(jwild, b);
      Prunable(known, path);
    }
  }

  lemma {:induction false} OpenNext(wilds: set<Bytes>, jwild: seq<OpenWild>, path: Bytes, i: nat)
    requires i < |path| && OpenFor(wilds, jwild, path[..i])
    ensures var opens := path[i] == DOT && path[..i] in wilds;
            OpenFor(wilds, if opens then jwild + [OpenWild(path[..i], None)] else jwild, path[..i + 1])
  {
    var more := if path[i] == DOT && path[..i] in wilds then jwild + [OpenWild(path[..i], None)] else jwild;
    forall j | 0 <= j < |jwild| ensures jwild[j].base != path[..i] {
      assert IsOpen(jwild, jwild[j].base);
    }
    forall b ensures IsOpen(more, b) <==> Opens(wilds, path[..i + 1], b) {
      OpensNext(wilds, path, i, b);
      if IsOpen(jwild, b) {
        var j :| 0 <= j < |jwild| && jwild[j].base == b;
        assert more[j].base == b;
      }
      if |more| > |jwild| && b == path[..i] {
        assert more[|jwild|].base == b;
      }
    }
  }

  lemma {:induction false} OpensNext(wilds: set<Bytes>, path: Bytes, i: nat, b: Bytes)
    requires i < |path|
    ensures Opens(wilds, path[..i + 1], b) <==>
            Opens(wilds, path[..i], b) || (path[i] == DOT && path[..i] in wilds && b == path[..i])
  {
    TakeNext(path, i);
    if |b| <= i {
      assert path[..i + 1][..|b|] == path[..|b|];
    }
    if |b| < i {
      assert path[..i][..|b|] == path[..|b|];
    }
  }

  lemma {:induction false} AlreadyTarget(targets: set<Bytes>, p: Bytes)
    requires p in targets
    ensures targets + {p} == targets
  {
  }

  lemma {:induction false} StillUsed(before: seq<ChainedSpan>, spans: seq<ChainedSpan>, found: seq<Found>, s: nat)
    requires before <= spans && s < |before| && AllUsed(before, found, None)
    requires AllUsed(spans, found, Some(spans[s].path))
    ensures AllUsed(spans, found, None)
  {
    assert before[s] == spans[s];
  }

  lemma {:induction false} SpansDiffer(hash: Probing.Hash, slots: Slots, spans: seq<ChainedSpan>, s: nat,
                                       own: Option<nat>, q: Bytes)
    requires Indexed(hash, slots, spans) && s < |spans| && Some(s) != own
    requires own.Some? ==> own.value < |spans| && spans[own.value].path == q
    ensures !(own.Some? && spans[s].path == q)
  {
    if own.Some? && spans[s].path == q {
      PathsDiffer(hash, slots, spans, s, own.value);
    }
  }

  lemma {:induction false} NewSpansOnly(before: seq<ChainedSpan>, spans: seq<ChainedSpan>, path: Bytes,
                                        jvals: seq<JVal>, found: seq<Found>, jwild: seq<OpenWild>)
    requires before <= spans && |spans| <= |before| + 1 && (|spans| > |before| ==> spans[|before|].path == path)
    requires Recorded(before, jvals, found) && WildSpans(before, jwild)
    ensures Recorded(spans, jvals, found) && WildSpans(spans, jwild)
    ensures AllUsed(before, found, None) ==> AllUsed(spans, found, Some(path))
  {
  }
}
