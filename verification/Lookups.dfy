/**
 * What a call looks up while it gathers the values of an event, in order (reset
 * and addWild in engine.go, jsonParser in matchjson.go). Every lookup is one
 * atomic read of a table that a writer may extend meanwhile.
 */
module Lookups {
  import opened ByteStrings
  import JsonGrammar
  import JsonRecords
  import Paths
  import Rules

  type Json = JsonGrammar.Json
  type Member = JsonGrammar.Member

  /**
   * MatchJSON enters an object if its path is a prefix of a known path. It and
   * Match look for a wildcard path at every dot of a path, and for a value
   * whether its own path is known. outer holds the positions of the lookups
   * whose objects and keys this one is inside of, from the outside in.
   */
  datatype Lookup =
    | Enter(path: Bytes, outer: seq<nat>)
    | Look(path: Bytes, outer: seq<nat>)
    | Value(path: Bytes, values: seq<Bytes>, outer: seq<nat>)

  type Call = seq<Lookup>

  /** The event whose values are gathered. */
  function EventOf(g: Call): Rules.Event {
    if g == [] then []
    else
      var last := g[|g| - 1];
      EventOf(g[..|g| - 1]) + if last.Value? then [Rules.Property(last.path, last.values)] else []
  }

  // ------------------------------------------------------- the order of lookups

  datatype Opened = Opened(g: Call, outer: seq<nat>)

  /** addWild, openWilds: one lookup for every dot of path from position i on. */
  function AddLooks(g: Call, path: Bytes, i: nat, outer: seq<nat>): (o: Opened)
    ensures g <= o.g && outer <= o.outer
    decreases |path| - i
  {
    if i >= |path| then Opened(g, outer)
    else if path[i] == DOT then AddLooks(g + [Look(path[..i], outer)], path, i + 1, outer + [|g|])
    else AddLooks(g, path, i + 1, outer)
  }

  /** The dots of the path of a property, and its values. */
  function AddProperty(g: Call, q: Rules.Property): Call {
    var o := AddLooks(g, q.path, 0, []);
    o.g + [Value(q.path, q.values, o.outer)]
  }

  /** reset */
  function OfMatch(event: Rules.Event): Call {
    if event == [] then []
    else AddProperty(OfMatch(event[..|event| - 1]), event[|event| - 1])
  }

  /** value */
  function AddValue(g: Call, j: Json, path: Bytes, outer: seq<nat>): Call
    decreases j, 1
  {
    match j
    case JNull => g
    case JWord(s) => g + [Value(path, [s], outer)]
    case JText(s) => g + [Value(path, [s], outer)]
    case JArray(items) => AddItems(g, items, path, outer)
    case JObject(members) => AddMembers(EnterObject(g, path, outer), members, path + [DOT], outer + [|g|, |g| + 1])
  }

  function EnterObject(g: Call, path: Bytes, outer: seq<nat>): Call {
    g + [Enter(path, outer)] + [Look(path, outer + [|g|])]
  }

  /** array */
  function AddItems(g: Call, items: seq<Json>, path: Bytes, outer: seq<nat>): Call
    decreases items, 0
  {
    if items == [] then g
    else AddValue(AddItems(g, items[..|items| - 1], path, outer), items[|items| - 1], path, outer)
  }

  /** object, whose keys are appended to prefix. */
  function AddMembers(g: Call, members: seq<Member>, prefix: Bytes, outer: seq<nat>): Call
    decreases members, 0
  {
    if members == [] then g
    else
      var m := members[|members| - 1];
      var o := AddLooks(AddMembers(g, members[..|members| - 1], prefix, outer), prefix + m.key, |prefix|, outer);
      AddValue(o.g, m.value, prefix + m.key, o.outer)
  }

  /** resetJSON */
  function OfMatchJson(members: seq<Member>): Call {
    AddMembers([], members, [], [])
  }

  // -------------------------------------------------------------- good calls

  /** b is inside of what a was looked up for. */
  ghost predicate Inside(a: Lookup, b: Lookup) {
    Paths.IsPrefix(a.path, b.path) || (a.Enter? && b.Look? && a.path == b.path)
  }

  /** outer holds positions of lookups that are inside of each other. */
  ghost predicate Chain(g: Call, outer: seq<nat>) {
    forall k :: 0 <= k < |outer| ==>
      outer[k] < |g| && !g[outer[k]].Value? && g[outer[k]].outer == outer[..k]
  }

  /** They are still open after the lookups g. */
  ghost predicate Open(g: Call, outer: seq<nat>) {
    forall x :: x in outer ==> |g| > 0 && (x == |g| - 1 || x in g[|g| - 1].outer)
  }

  ghost predicate AllInside(g: Call, outer: seq<nat>, b: Lookup) {
    forall x :: x in outer ==> x < |g| && Inside(g[x], b)
  }

  ghost predicate LooksUp(g: Call, outer: seq<nat>, base: Bytes) {
    exists x :: x in outer && x < |g| && g[x].Look? && g[x].path == base
  }

  /** Every dot of path has been looked up. */
  ghost predicate LooksAll(g: Call, outer: seq<nat>, path: Bytes) {
    forall base :: Paths.IsPrefix(base, path) ==> LooksUp(g, outer, base)
  }

  /** The lookup a may follow those in g. */
  ghost predicate Follows(g: Call, a: Lookup) {
    && Chain(g, a.outer) && Open(g, a.outer) && AllInside(g, a.outer, a)
    && (a.Value? ==> LooksAll(g, a.outer, a.path))
  }

  ghost predicate Good(g: Call) {
    forall i :: 0 <= i < |g| ==> Follows(g[..i], g[i])
  }

  lemma {:induction false} GoodSnoc(g: Call, a: Lookup)
    requires Good(g) && Follows(g, a)
    ensures Good(g + [a])
  {
    forall i | 0 <= i < |g + [a]| ensures Follows((g + [a])[..i], (g + [a])[i]) {
      assert (g + [a])[..i] == g[..i];
      TakeAll(g);
    }
  }

  /** A lookup stays open until it is closed for good. */
  lemma {:induction false} StaysOpen(g: Call, x: nat, i: nat, m: nat)
    requires Good(g) && x < m < i < |g| && x in g[i].outer
    ensures x in g[m].outer
    decreases i
  {
    assert Follows(g[..i], g[i]);
    assert x in g[i - 1].outer;
    if m < i - 1 {
      StaysOpen(g, x, i - 1, m);
    }
  }

  lemma {:induction false} OuterAt(g: Call, i: nat, k: nat)
    requires Good(g) && i < |g| && k < |g[i].outer|
    ensures var x := g[i].outer[k]; x < i && !g[x].Value? && Inside(g[x], g[i]) && g[x].outer == g[i].outer[..k]
  {
    assert Follows(g[..i], g[i]);
    assert g[i].outer[k] in g[i].outer;
  }

  lemma {:induction false} OuterBefore(g: Call, i: nat, k: nat, l: nat)
    requires Good(g) && i < |g| && k < l < |g[i].outer|
    ensures g[i].outer[k] < g[i].outer[l] && g[i].outer[k] in g[g[i].outer[l]].outer
  {
    var x, y := g[i].outer[k], g[i].outer[l];
    OuterAt(g, i, l);
    assert x == g[i].outer[..l][k];
    OuterAt(g, y, k);
  }

  lemma {:induction false} OuterOuter(g: Call, i: nat, l: nat, x: nat)
    requires Good(g) && i < |g| && l < |g[i].outer| && x in g[g[i].outer[l]].outer
    ensures x in g[i].outer && x < g[i].outer[l]
  {
    OuterAt(g, i, l);
    var k :| 0 <= k < l && g[i].outer[..l][k] == x;
    OuterBefore(g, i, k, l);
  }

  /** What i is inside of, seen from the inner one y. */
  lemma {:induction false} OuterOf(g: Call, i: nat, y: nat)
    requires Good(g) && i < |g| && y in g[i].outer
    ensures y < i && !g[y].Value? && Inside(g[y], g[i])
    ensures forall x :: x in g[i].outer && x < y <==> x in g[y].outer
  {
    var l :| 0 <= l < |g[i].outer| && g[i].outer[l] == y;
    OuterAt(g, i, l);
    forall x | x in g[i].outer && x < y ensures x in g[y].outer {
      var k :| 0 <= k < |g[i].outer| && g[i].outer[k] == x;
      if l < k {
        OuterBefore(g, i, l, k);
      }
      OuterBefore(g, i, k, l);
    }
    forall x | x in g[y].outer ensures x in g[i].outer && x < y {
      OuterOuter(g, i, l, x);
    }
  }

  /** All dots of the path of a value have been looked up, inside of each other. */
  lemma {:induction false} DotLooked(g: Call, i: nat, base: Bytes) returns (x: nat)
    requires Good(g) && i < |g| && g[i].Value? && Paths.IsPrefix(base, g[i].path)
    ensures x in g[i].outer && x < i && g[x].Look? && g[x].path == base
  {
    assert Follows(g[..i], g[i]) && LooksUp(g[..i], g[i].outer, base);
    x :| x in g[i].outer && x < i && g[..i][x].Look? && g[..i][x].path == base;
  }

  // ------------------------------------------------------- calls are good

  /** What is open after g for the path stem, all of whose dots have been looked up. */
  ghost predicate Ready(g: Call, outer: seq<nat>, stem: Bytes) {
    && Good(g) && Chain(g, outer) && Open(g, outer) && LooksAll(g, outer, stem)
    && forall x :: x in outer ==> x < |g| && Paths.IsPrefix(g[x].path, stem)
  }

  lemma {:induction false} ChainLonger(g: Call, more: Call, outer: seq<nat>)
    requires Chain(g, outer) && g <= more
    ensures Chain(more, outer)
  {
    forall k | 0 <= k < |outer| ensures more[outer[k]] == g[outer[k]] {
    }
  }

  lemma {:induction false} ChainSnoc(g: Call, a: Lookup)
    requires Chain(g, a.outer) && Open(g, a.outer)
    ensures Chain(g + [a], a.outer) && Open(g + [a], a.outer)
    ensures !a.Value? ==> Chain(g + [a], a.outer + [|g|]) && Open(g + [a], a.outer + [|g|])
  {
    ChainLonger(g, g + [a], a.outer);
    if !a.Value? {
      var outer := a.outer + [|g|];
      forall k | 0 <= k < |outer| ensures outer[..k] == a.outer[..k] {
      }
      TakeAll(a.outer);
    }
  }

  lemma {:induction false} LooksLonger(g: Call, more: Call, outer: seq<nat>, outer': seq<nat>, base: Bytes)
    requires LooksUp(g, outer, base) && g <= more && outer <= outer'
    ensures LooksUp(more, outer', base)
  {
    var x :| x in outer && x < |g| && g[x].Look? && g[x].path == base;
    assert x in outer' && more[x] == g[x];
  }

  /** The looks made while the dots of path before i are done. */
  ghost predicate Looking(g: Call, outer: seq<nat>, path: Bytes, i: nat) {
    && Good(g) && Chain(g, outer) && Open(g, outer)
    && (forall x :: x in outer ==> x < |g| && |g[x].path| < i && Paths.IsPrefix(g[x].path, path))
    && forall base :: Paths.IsPrefix(base, path) && |base| < i ==> LooksUp(g, outer, base)
  }

  lemma {:induction false} PrefixShorter(a: Bytes, path: Bytes, i: nat)
    requires Paths.IsPrefix(a, path) && |a| < i <= |path|
    ensures Paths.IsPrefix(a, path[..i])
  {
    assert path[..i][..|a|] == path[..|a|];
  }

  lemma {:induction false} LookFollows(g: Call, path: Bytes, i: nat, outer: seq<nat>)
    requires Looking(g, outer, path, i) && i < |path| && path[i] == DOT
    ensures Follows(g, Look(path[..i], outer))
  {
    forall x | x in outer ensures Inside(g[x], Look(path[..i], outer)) {
      PrefixShorter(g[x].path, path, i);
    }
  }

  /** The part of path before its dot at i is the only prefix of this length. */
  lemma {:induction false} LookFinds(g: Call, path: Bytes, i: nat, outer: seq<nat>, base: Bytes)
    requires Looking(g, outer, path, i) && i < |path| && Paths.IsPrefix(base, path) && |base| < i + 1
    ensures LooksUp(g + [Look(path[..i], outer)], outer + [|g|], base)
  {
    var more := g + [Look(path[..i], outer)];
    if |base| < i {
      LooksLonger(g, more, outer, outer + [|g|], base);
    } else {
      assert more[|g|].path == base && |g| in outer + [|g|];
    }
  }

  lemma {:induction false} LookInside(g: Call, path: Bytes, i: nat, outer: seq<nat>, x: nat)
    requires Looking(g, outer, path, i) && i < |path| && path[i] == DOT && x in outer + [|g|]
    ensures var more := g + [Look(path[..i], outer)];
            x < |more| && |more[x].path| < i + 1 && Paths.IsPrefix(more[x].path, path)
  {
    var more := g + [Look(path[..i], outer)];
    if x in outer {
      assert more[x] == g[x];
    }
  }

  lemma {:induction false} OneLook(g: Call, path: Bytes, i: nat, outer: seq<nat>)
    requires Looking(g, outer, path, i) && i < |path| && path[i] == DOT
    ensures Looking(g + [Look(path[..i], outer)], outer + [|g|], path, i + 1)
  {
    var more, outer' := g + [Look(path[..i], outer)], outer + [|g|];
    LookFollows(g, path, i, outer);
    GoodSnoc(g, Look(path[..i], outer));
    ChainSnoc(g, Look(path[..i], outer));
    forall x | x in outer' ensures x < |more| && |more[x].path| < i + 1 && Paths.IsPrefix(more[x].path, path) {
      LookInside(g, path, i, outer, x);
    }
    forall base | Paths.IsPrefix(base, path) && |base| < i + 1 ensures LooksUp(more, outer', base) {
      LookFinds(g, path, i, outer, base);
    }
  }

  lemma {:induction false} NoLook(g: Call, path: Bytes, i: nat, outer: seq<nat>)
    requires Looking(g, outer, path, i) && i < |path| && path[i] != DOT
    ensures Looking(g, outer, path, i + 1)
  {
    forall base | Paths.IsPrefix(base, path) && |base| < i + 1 ensures LooksUp(g, outer, base) {
      assert |base| < i;
    }
  }

  lemma {:induction false} EventSnoc(g: Call, a: Lookup)
    ensures EventOf(g + [a]) == EventOf(g) + if a.Value? then [Rules.Property(a.path, a.values)] else []
  {
    assert (g + [a])[..|g|] == g;
  }

  lemma {:induction false} AllLooked(g: Call, path: Bytes, i: nat, outer: seq<nat>)
    requires Looking(g, outer, path, i) && i >= |path|
    ensures Ready(g, outer, path)
  {
  }

  lemma {:induction false} LooksGood(g: Call, path: Bytes, i: nat, outer: seq<nat>)
    requires Looking(g, outer, path, i)
    ensures var o := AddLooks(g, path, i, outer); Ready(o.g, o.outer, path) && EventOf(o.g) == EventOf(g)
    decreases |path| - i
  {
    if i >= |path| {
      AllLooked(g, path, i, outer);
    } else if path[i] == DOT {
      OneLook(g, path, i, outer);
      EventSnoc(g, Look(path[..i], outer));
      LooksGood(g + [Look(path[..i], outer)], path, i + 1, outer + [|g|]);
    } else {
      NoLook(g, path, i, outer);
      LooksGood(g, path, i + 1, outer);
    }
  }

  /** What was open before is still open. */
  lemma {:induction false} StillReady(g: Call, outer: seq<nat>, stem: Bytes, more: Call, outer': seq<nat>)
    requires Ready(g, outer, stem) && Good(more) && Chain(more, outer') && Open(more, outer')
    requires g <= more && outer <= outer'
    ensures Ready(more, outer, stem)
  {
    ChainLonger(g, more, outer);
    forall x | x in outer ensures x in outer' && x < |more| && more[x] == g[x] {
    }
    forall base | Paths.IsPrefix(base, stem) ensures LooksUp(more, outer, base) {
      LooksLonger(g, more, outer, outer, base);
    }
  }

  lemma {:induction false} ScalarGood(g: Call, path: Bytes, values: seq<Bytes>, outer: seq<nat>)
    requires Ready(g, outer, path)
    ensures var more := g + [Value(path, values, outer)];
            Ready(more, outer, path) && EventOf(more) == EventOf(g) + [Rules.Property(path, values)]
  {
    var a := Value(path, values, outer);
    GoodSnoc(g, a);
    ChainSnoc(g, a);
    StillReady(g, outer, path, g + [a], outer);
    EventSnoc(g, a);
  }

  /** In the object at path, the part before its dot is looked up too. */
  lemma {:induction false} EnterGood(g: Call, path: Bytes, outer: seq<nat>)
    requires Ready(g, outer, path)
    ensures var h, inner := g + [Enter(path, outer)], outer + [|g|];
            && Good(h) && EventOf(h) == EventOf(g) && Chain(h, inner) && Open(h, inner)
            && AllInside(h, inner, Look(path, inner))
  {
    var a := Enter(path, outer);
    GoodSnoc(g, a);
    ChainSnoc(g, a);
    EventSnoc(g, a);
    var h, inner := g + [a], outer + [|g|];
    forall x | x in inner ensures x < |h| && Inside(h[x], Look(path, inner)) {
      if x in outer {
        assert h[x] == g[x];
      }
    }
  }

  /** The object at path has its keys after the dot. */
  lemma {:induction false} ObjectInside(g: Call, path: Bytes, outer: seq<nat>, h: Call, inner: seq<nat>)
    requires Ready(g, outer, path) && inner == outer + [|g|, |g| + 1] && g <= h && |h| == |g| + 2
    requires h[|g|].path == path && h[|g| + 1].path == path && h[|g| + 1].Look?
    ensures LooksAll(h, inner, path + [DOT])
    ensures forall x :: x in inner ==> x < |h| && Paths.IsPrefix(h[x].path, path + [DOT])
  {
    var stem := path + [DOT];
    assert stem[..|path|] == path;
    forall x | x in inner ensures x < |h| && Paths.IsPrefix(h[x].path, stem) {
      if x in outer {
        assert h[x] == g[x] && Paths.IsPrefix(g[x].path, path);
      }
    }
    forall base | Paths.IsPrefix(base, stem) ensures LooksUp(h, inner, base) {
      if |base| < |path| {
        assert Paths.IsPrefix(base, path);
        LooksLonger(g, h, outer, inner, base);
      } else {
        assert base == path && |g| + 1 in inner;
      }
    }
  }

  lemma {:induction false} ObjectReady(g: Call, path: Bytes, outer: seq<nat>)
    requires Ready(g, outer, path)
    ensures Ready(EnterObject(g, path, outer), outer + [|g|, |g| + 1], path + [DOT])
    ensures EventOf(EnterObject(g, path, outer)) == EventOf(g)
  {
    var h, b := g + [Enter(path, outer)], Look(path, outer + [|g|]);
    EnterGood(g, path, outer);
    GoodSnoc(h, b);
    ChainSnoc(h, b);
    EventSnoc(h, b);
    assert outer + [|g|, |g| + 1] == b.outer + [|h|];
    ObjectInside(g, path, outer, h + [b], outer + [|g|, |g| + 1]);
  }

  /** The keys of an object go on from its prefix. */
  lemma {:induction false} KeyLooking(g: Call, prefix: Bytes, key: Bytes, outer: seq<nat>)
    requires Ready(g, outer, prefix)
    ensures Looking(g, outer, prefix + key, |prefix|)
  {
    var path := prefix + key;
    forall x | x in outer ensures x < |g| && |g[x].path| < |prefix| && Paths.IsPrefix(g[x].path, path) {
      assert g[x].path == prefix[..|g[x].path|] == path[..|g[x].path|];
    }
    forall base | Paths.IsPrefix(base, path) && |base| < |prefix| ensures LooksUp(g, outer, base) {
      assert base == prefix[..|base|] && Paths.IsPrefix(base, prefix);
    }
  }

  /** g has become more, with the properties of event. */
  ghost predicate Gathers(g: Call, more: Call, outer: seq<nat>, stem: Bytes, event: Rules.Event) {
    Ready(more, outer, stem) && g <= more && EventOf(more) == EventOf(g) + event
  }

  lemma {:induction false} GathersNothing(g: Call, outer: seq<nat>, stem: Bytes)
    requires Ready(g, outer, stem)
    ensures Gathers(g, g, outer, stem, [])
  {
  }

  lemma {:induction false} GathersTrans(a: Call, b: Call, c: Call, outer: seq<nat>, stem: Bytes, first: Rules.Event,
                                        second: Rules.Event)
    requires Gathers(a, b, outer, stem, first) && Gathers(b, c, outer, stem, second)
    ensures Gathers(a, c, outer, stem, first + second)
  {
    assert EventOf(a) + first + second == EventOf(a) + (first + second);
  }

  /** What is inside of an object or a key gathers as much for what is around it. */
  lemma {:induction false} GathersInside(g: Call, outer: seq<nat>, stem: Bytes, h: Call, inner: seq<nat>, path: Bytes,
                                         more: Call, event: Rules.Event)
    requires Ready(g, outer, stem) && g <= h && outer <= inner && EventOf(h) == EventOf(g)
    requires Gathers(h, more, inner, path, event)
    ensures Gathers(g, more, outer, stem, event)
  {
    StillReady(g, outer, stem, more, inner);
  }

  lemma {:induction false} ObjectGathers(g: Call, path: Bytes, outer: seq<nat>, more: Call, event: Rules.Event)
    requires Ready(g, outer, path)
    requires Gathers(EnterObject(g, path, outer), more, outer + [|g|, |g| + 1], path + [DOT], event)
    ensures Gathers(g, more, outer, path, event)
  {
    ObjectReady(g, path, outer);
    GathersInside(g, outer, path, EnterObject(g, path, outer), outer + [|g|, |g| + 1], path + [DOT], more, event);
  }

  lemma {:induction false} ValueGathers(g: Call, j: Json, path: Bytes, outer: seq<nat>)
    requires Ready(g, outer, path)
    ensures Gathers(g, AddValue(g, j, path, outer), outer, path, JsonRecords.Flatten(j, path))
    decreases j, 1
  {
    match j
    case JNull => GathersNothing(g, outer, path);
    case JWord(s) => ScalarGood(g, path, [s], outer);
    case JText(s) => ScalarGood(g, path, [s], outer);
    case JArray(items) => ItemsGather(g, items, path, outer);
    case JObject(members) =>
      ObjectReady(g, path, outer);
      MembersGather(EnterObject(g, path, outer), members, path + [DOT], outer + [|g|, |g| + 1]);
      ObjectGathers(g, path, outer, AddValue(g, j, path, outer), JsonRecords.Flatten(j, path));
  }

  lemma {:induction false} ItemsGather(g: Call, items: seq<Json>, path: Bytes, outer: seq<nat>)
    requires Ready(g, outer, path)
    ensures Gathers(g, AddItems(g, items, path, outer), outer, path, JsonRecords.FlattenItems(items, path))
    decreases items, 0
  {
    if items == [] {
      GathersNothing(g, outer, path);
    } else {
      var init, last := items[..|items| - 1], items[|items| - 1];
      var h := AddItems(g, init, path, outer);
      ItemsGather(g, init, path, outer);
      ValueGathers(h, last, path, outer);
      GathersTrans(g, h, AddValue(h, last, path, outer), outer, path, JsonRecords.FlattenItems(init, path),
                   JsonRecords.Flatten(last, path));
    }
  }

  lemma {:induction false} MemberGathers(g: Call, m: Member, prefix: Bytes, outer: seq<nat>)
    requires Ready(g, outer, prefix)
    ensures var o := AddLooks(g, prefix + m.key, |prefix|, outer);
            Gathers(g, AddValue(o.g, m.value, prefix + m.key, o.outer), outer, prefix,
                    JsonRecords.Flatten(m.value, prefix + m.key))
    decreases m, 2
  {
    var path := prefix + m.key;
    var o := AddLooks(g, path, |prefix|, outer);
    KeyLooking(g, prefix, m.key, outer);
    LooksGood(g, path, |prefix|, outer);
    ValueGathers(o.g, m.value, path, o.outer);
    GathersInside(g, outer, prefix, o.g, o.outer, path, AddValue(o.g, m.value, path, o.outer),
                  JsonRecords.Flatten(m.value, path));
  }

  lemma {:induction false} MembersGather(g: Call, members: seq<Member>, prefix: Bytes, outer: seq<nat>)
    requires Ready(g, outer, prefix)
    ensures Gathers(g, AddMembers(g, members, prefix, outer), outer, prefix,
                    JsonRecords.FlattenMembers(members, prefix))
    decreases members, 0
  {
    if members == [] {
      GathersNothing(g, outer, prefix);
    } else {
      var init, m := members[..|members| - 1], members[|members| - 1];
      var h := AddMembers(g, init, prefix, outer);
      MembersGather(g, init, prefix, outer);
      MemberGathers(h, m, prefix, outer);
      GathersTrans(g, h, AddMembers(g, members, prefix, outer), outer, prefix,
                   JsonRecords.FlattenMembers(init, prefix), JsonRecords.Flatten(m.value, prefix + m.key));
    }
  }

  lemma {:induction false} NothingReady()
    ensures Ready([], [], [])
  {
  }

  /** MatchJSON gathers the values of the flattened object. */
  lemma {:induction false} OfMatchJsonGood(members: seq<Member>)
    ensures Good(OfMatchJson(members)) && EventOf(OfMatchJson(members)) == JsonRecords.FlattenMembers(members, [])
  {
    NothingReady();
    MembersGather([], members, [], []);
  }

  /** The lookups g gather the values of event, without entering objects. */
  ghost predicate ForEvent(g: Call, event: Rules.Event) {
    Good(g) && EventOf(g) == event && forall a :: a in g ==> !a.Enter?
  }

  lemma {:induction false} PropertyGood(g: Call, event: Rules.Event, q: Rules.Property, more: Call)
    requires ForEvent(g, event) && more == AddProperty(g, q)
    ensures ForEvent(more, event + [q])
  {
    var o := AddLooks(g, q.path, 0, []);
    LooksGood(g, q.path, 0, []);
    ScalarGood(o.g, q.path, q.values, o.outer);
    LooksEnterNothing(g, q.path, 0, []);
  }

  /** Match gathers the values of its event. */
  lemma {:induction false} OfMatchGood(event: Rules.Event)
    ensures ForEvent(OfMatch(event), event)
  {
    if event != [] {
      var n := |event| - 1;
      OfMatchGood(event[..n]);
      PropertyGood(OfMatch(event[..n]), event[..n], event[n], OfMatch(event));
      assert event == event[..n] + [event[n]];
    }
  }

  lemma {:induction false} LooksEnterNothing(g: Call, path: Bytes, i: nat, outer: seq<nat>)
    requires forall a :: a in g ==> !a.Enter?
    ensures forall a :: a in AddLooks(g, path, i, outer).g ==> !a.Enter?
    decreases |path| - i
  {
    if i < |path| {
      if path[i] == DOT {
        LooksEnterNothing(g + [Look(path[..i], outer)], path, i + 1, outer + [|g|]);
      } else {
        LooksEnterNothing(g, path, i + 1, outer);
      }
    }
  }
}
