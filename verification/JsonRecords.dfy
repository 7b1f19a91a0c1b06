/** What MatchJSON records while it parses: values of paths and of open wildcard paths (matchjson.go). */
module JsonRecords {
  import opened ByteStrings
  import opened SpanIndex
  import opened SpanTables
  import Paths
  import Rules
  import JsonGrammar

  type World = Rules.World
  type Json = JsonGrammar.Json

  // ------------------------------------------------------------- flattening

  /** The event a JSON value stands for: keys joined with ".", arrays spread, null absent. */
  function Flatten(j: Json, path: Bytes): Rules.Event
    decreases j, 1
  {
    match j
    case JNull => []
    case JWord(s) => [Rules.Property(path, [s])]
    case JText(s) => [Rules.Property(path, [s])]
    case JArray(items) => FlattenItems(items, path)
    case JObject(members) => FlattenMembers(members, path + [DOT])
  }

  function FlattenItems(items: seq<Json>, path: Bytes): Rules.Event
    decreases items, 0
  {
    if items == [] then []
    else FlattenItems(items[..|items| - 1], path) + Flatten(items[|items| - 1], path)
  }

  /** The members of an object whose paths begin with prefix. */
  function FlattenMembers(members: seq<JsonGrammar.Member>, prefix: Bytes): Rules.Event
    decreases members, 0
  {
    if members == [] then []
    else
      var m := members[|members| - 1];
      FlattenMembers(members[..|members| - 1], prefix) + Flatten(m.value, prefix + m.key)
  }

  // ---------------------------------------------------------------- records

  /** A value recorded for a path. */
  datatype Found = Found(path: Bytes, value: Bytes)

  function ValuesOf(found: seq<Found>, p: Bytes): seq<Bytes> {
    if found == [] then []
    else
      var last := found[|found| - 1];
      ValuesOf(found[..|found| - 1], p) + if last.path == p then [last.value] else []
  }

  lemma {:induction false} ValuesOfSnoc(found: seq<Found>, f: Found, p: Bytes)
    ensures ValuesOf(found + [f], p) == ValuesOf(found, p) + if f.path == p then [f.value] else []
  {
    assert (found + [f])[..|found|] == found;
  }

  /** For all paths conditions refer to, exactly the folded values of the event were recorded. */
  ghost predicate Gain(w: World, paths: set<Bytes>, a: seq<Found>, b: seq<Found>, event: Rules.Event) {
    forall p :: p in paths ==> ValuesOf(b, p) == ValuesOf(a, p) + Rules.FoldedAt(w, event, p)
  }

  lemma {:induction false} ValuesAtConcat(a: Rules.Event, b: Rules.Event, p: Bytes)
    ensures Rules.ValuesAt(a + b, p) == Rules.ValuesAt(a, p) + Rules.ValuesAt(b, p)
  {
    if a == [] {
      assert a + b == b;
    } else {
      ValuesAtConcat(a[1..], b, p);
      assert (a + b)[1..] == a[1..] + b;
    }
  }

  lemma {:induction false} FoldedAtConcat(w: World, a: Rules.Event, b: Rules.Event, p: Bytes)
    ensures Rules.FoldedAt(w, a + b, p) == Rules.FoldedAt(w, a, p) + Rules.FoldedAt(w, b, p)
  {
    ValuesAtConcat(a, b, p);
    FoldConcat(w, Rules.ValuesAt(a, p), Rules.ValuesAt(b, p));
  }

  lemma {:induction false} GainTrans(w: World, paths: set<Bytes>, a: seq<Found>, b: seq<Found>, c: seq<Found>,
                                     first: Rules.Event, second: Rules.Event)
    requires Gain(w, paths, a, b, first) && Gain(w, paths, b, c, second)
    ensures Gain(w, paths, a, c, first + second)
  {
    forall p | p in paths ensures ValuesOf(c, p) == ValuesOf(a, p) + Rules.FoldedAt(w, first + second, p) {
      FoldedAtConcat(w, first, second, p);
      assert ValuesOf(b, p) == ValuesOf(a, p) + Rules.FoldedAt(w, first, p);
    }
  }

  lemma {:induction false} GainNothing(w: World, paths: set<Bytes>, a: seq<Found>)
    ensures Gain(w, paths, a, a, [])
  {
  }

  // -------------------------------------------------------- which paths count

  /** No condition refers to a path that begins with prefix. */
  ghost predicate Useless(known: Paths.Index, prefix: Bytes) {
    forall q: Bytes, p :: prefix <= q && p in known.paths ==> !Rules.RefersTo(p, q)
  }

  lemma {:induction false} UselessLonger(known: Paths.Index, prefix: Bytes, more: Bytes)
    requires Useless(known, prefix) && prefix <= more
    ensures Useless(known, more)
  {
  }

  lemma {:induction false} OneValue(w: World, q: Bytes, v: Bytes, p: Bytes)
    ensures Rules.FoldedAt(w, [Rules.Property(q, [v])], p) == if Rules.RefersTo(p, q) then [w.fold(v)] else []
  {
    var event := [Rules.Property(q, [v])];
    assert event[1..] == [];
    assert Rules.ValuesAt(event, p) == if Rules.RefersTo(p, q) then [v] else [];
  }

  /** A value at a useless path gains nothing. */
  lemma {:induction false} GainUseless(w: World, known: Paths.Index, a: seq<Found>, path: Bytes, v: Bytes)
    requires Useless(known, path)
    ensures Gain(w, known.paths, a, a, [Rules.Property(path, [v])])
  {
    forall p | p in known.paths ensures Rules.FoldedAt(w, [Rules.Property(path, [v])], p) == [] {
      OneValue(w, path, v, p);
      assert !Rules.RefersTo(p, path);
    }
  }

  /** The wildcard path base.* is open for the values at path. */
  ghost predicate Opens(wilds: set<Bytes>, path: Bytes, base: Bytes) {
    base in wilds && Paths.IsPrefix(base, path)
  }

  /** An object at path need not be recorded: no wildcard path is open, and no condition refers below it. */
  lemma {:induction false} Prunable(known: Paths.Index, path: Bytes)
    requires Paths.Valid(known) && path !in known.prefixes
    requires forall b :: !Opens(known.wilds, path, b)
    ensures Useless(known, path + [DOT])
  {
    forall q: Bytes, p | path + [DOT] <= q && p in known.paths ensures !Rules.RefersTo(p, q) {
      PrunableOne(known, path, q, p);
    }
  }

  lemma {:induction false} PrunableOne(known: Paths.Index, path: Bytes, q: Bytes, p: Bytes)
    requires Paths.Valid(known) && path !in known.prefixes && path + [DOT] <= q && p in known.paths
    requires forall b :: !Opens(known.wilds, path, b)
    ensures !Rules.RefersTo(p, q)
  {
    assert q[..|path|] == path && q[|path|] == DOT;
    assert !Paths.IsPrefix(path, p);
    Paths.WildBaseOf(p);
    if Rules.WildBase(p).Some? && Rules.RefersTo(p, q) && p != q {
      var b := Rules.WildBase(p).value;
      assert b in known.wilds && q[..|b|] == b;
      if |b| < |path| {
        assert path[..|b|] == q[..|b|] && path[|b|] == q[|b|];
        assert Opens(known.wilds, path, b);
      }
    }
  }

  /** The paths a value at q is recorded for: q itself, if a condition refers to it, and the open wildcard paths. */
  ghost predicate IsTarget(known: Paths.Index, q: Bytes, p: Bytes) {
    (p == q && q in known.paths) || exists b :: Opens(known.wilds, q, b) && p == Paths.WildPath(b)
  }

  lemma {:induction false} TargetsRefer(known: Paths.Index, q: Bytes, p: Bytes)
    requires Paths.Valid(known) && p in known.paths
    ensures IsTarget(known, q, p) <==> Rules.RefersTo(p, q)
  {
    TookRefers(known, q, p);
    if p != q {
      if IsTarget(known, q, p) {
        var b :| Opens(known.wilds, q, b) && p == Paths.WildPath(b);
        assert WildAt(known.wilds, q, |b|, p);
      }
      if Took(known.wilds, q, |q|, p) {
        var d: nat :| d < |q| && WildAt(known.wilds, q, d, p);
        assert Opens(known.wilds, q, q[..d]);
      }
    }
  }

  ghost predicate AreTargets(known: Paths.Index, q: Bytes, targets: set<Bytes>) {
    forall p :: p in targets <==> IsTarget(known, q, p)
  }

  /** The value v was recorded once for each of the targets. */
  ghost predicate RecordedFor(a: seq<Found>, b: seq<Found>, v: Bytes, targets: set<Bytes>) {
    forall p :: ValuesOf(b, p) == ValuesOf(a, p) + if p in targets then [v] else []
  }

  lemma {:induction false} GainRecorded(w: World, known: Paths.Index, a: seq<Found>, b: seq<Found>, q: Bytes, v: Bytes,
                                        targets: set<Bytes>)
    requires Paths.Valid(known) && RecordedFor(a, b, w.fold(v), targets)
    requires AreTargets(known, q, targets)
    ensures Gain(w, known.paths, a, b, [Rules.Property(q, [v])])
  {
    forall p | p in known.paths
      ensures Rules.FoldedAt(w, [Rules.Property(q, [v])], p) == if p in targets then [w.fold(v)] else []
    {
      TargetsRefer(known, q, p);
      OneValue(w, q, v, p);
    }
  }
}
