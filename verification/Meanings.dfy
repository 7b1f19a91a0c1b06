/**
 * What patterns, paths and events say in elementary terms: numbers as reals,
 * bytes by their codes, texts by the ways to split them. The naive evaluation
 * says exactly this.
 */
module Meanings {
  import opened ByteStrings
  import opened Numbers
  import opened Rules
  import Glob

  // ----------------------------------------------------------------- numbers

  ghost predicate Below(x: Num, b: Num) {
    match b
    case NegInf => false
    case Finite(r) => x.NegInf? || (x.Finite? && x.r < r)
    case PosInf => !x.PosInf?
  }

  /** The number x compares with the bound b as a numeric pattern of type t says. */
  ghost predicate Compares(t: PatternType, x: Num, b: Num) {
    match t
    case LessThan => Below(x, b)
    case LessThanOrEqual => Below(x, b) || x == b
    case GreaterThan => Below(b, x)
    case GreaterThanOrEqual => Below(b, x) || x == b
    case NumericEquals => x == b
    case _ => false
  }

  lemma {:induction false} LessIsBelow(x: Num, b: Num)
    ensures Less(x, b) <==> Below(x, b)
  {
  }

  lemma {:induction false} EndsOf(t: PatternType, b: Num)
    requires IsNumeric(t)
    ensures var iv := BoundInterval(t, b);
            && iv.lo == (if t == LessThan || t == LessThanOrEqual then NegInf else b)
            && iv.hi == (if t == GreaterThan || t == GreaterThanOrEqual then PosInf else b)
            && (iv.loOpen <==> t == GreaterThan) && (iv.hiOpen <==> t == LessThan)
  {
  }

  /** The interval of a comparison holds exactly the numbers that compare with its bound. */
  lemma {:induction false} BoundMeaning(t: PatternType, x: Num, b: Num)
    requires t in {LessThan, LessThanOrEqual, GreaterThan, GreaterThanOrEqual, NumericEquals}
    ensures BoundInterval(t, b).Contains(x) <==> Compares(t, x, b)
  {
    EndsOf(t, b);
    LessIsBelow(x, b);
    LessIsBelow(b, x);
  }

  /** For finite numbers these are the comparisons of reals. */
  lemma {:induction false} RealBounds(x: real, b: real)
    ensures BoundInterval(LessThan, Finite(b)).Contains(Finite(x)) <==> x < b
    ensures BoundInterval(LessThanOrEqual, Finite(b)).Contains(Finite(x)) <==> x <= b
    ensures BoundInterval(GreaterThan, Finite(b)).Contains(Finite(x)) <==> x > b
    ensures BoundInterval(GreaterThanOrEqual, Finite(b)).Contains(Finite(x)) <==> x >= b
    ensures BoundInterval(NumericEquals, Finite(b)).Contains(Finite(x)) <==> x == b
  {
    forall t | t in {LessThan, LessThanOrEqual, GreaterThan, GreaterThanOrEqual, NumericEquals}
      ensures BoundInterval(t, Finite(b)).Contains(Finite(x)) <==> Compares(t, Finite(x), Finite(b))
    {
      BoundMeaning(t, Finite(x), Finite(b));
    }
  }

  // --------------------------------------------------------------- wildcards

  /** v is what the pattern text t stands for: 42 is the star, and 92 escapes a star or itself. */
  ghost predicate Globs(t: Bytes, v: Bytes)
    decreases |t|
  {
    if t == [] then v == []
    else if t[0] == 42 then exists k :: 0 <= k <= |v| && Globs(t[1..], v[k..])
    else if t[0] == 92 then
      |t| > 1 && (t[1] == 42 || t[1] == 92) && v != [] && v[0] == t[1] && Globs(t[2..], v[1..])
    else v != [] && v[0] == t[0] && Globs(t[1..], v[1..])
  }

  lemma {:induction false} LastOf(a: seq<Glob.Token>, init: seq<Glob.Token>, t: Glob.Token, v: Bytes)
    ensures t.Star? ==>
              (Glob.Accepts(a + (init + [t]), v) <==> exists k :: 0 <= k <= |v| && Glob.Accepts(a + init, v[..k]))
    ensures t.Lit? ==>
              (Glob.Accepts(a + (init + [t]), v) <==>
               v != [] && v[|v| - 1] == t.c && Glob.Accepts(a + init, v[..|v| - 1]))
  {
    var ts := a + (init + [t]);
    assert ts[|ts| - 1] == t && ts[..|ts| - 1] == a + init;
  }

  lemma {:induction false} LastAlone(init: seq<Glob.Token>, t: Glob.Token, v: Bytes)
    ensures t.Star? ==> (Glob.Accepts(init + [t], v) <==> exists k :: 0 <= k <= |v| && Glob.Accepts(init, v[..k]))
    ensures t.Lit? ==>
              (Glob.Accepts(init + [t], v) <==>
               v != [] && v[|v| - 1] == t.c && Glob.Accepts(init, v[..|v| - 1]))
  {
    LastOf([], init, t, v);
    assert [] + (init + [t]) == init + [t] && [] + init == init;
  }

  lemma {:induction false} Slices(v: Bytes, k: nat, m: nat)
    requires k <= m <= |v|
    ensures v[..m][..k] == v[..k] && v[..m][k..] == v[k..][..m - k]
  {
  }

  /** What two patterns accept one after the other, both together accept. */
  lemma {:induction false} AcceptsBoth(a: seq<Glob.Token>, b: seq<Glob.Token>, v: Bytes, k: nat)
    requires k <= |v| && Glob.Accepts(a, v[..k]) && Glob.Accepts(b, v[k..])
    ensures Glob.Accepts(a + b, v)
    decreases |b|
  {
    if b == [] {
      assert a + b == a && v[..k] == v;
    } else {
      var init, t := b[..|b| - 1], b[|b| - 1];
      assert b == init + [t];
      LastAlone(init, t, v[k..]);
      LastOf(a, init, t, v);
      var m := |v| - 1;
      if t.Star? {
        var j :| 0 <= j <= |v[k..]| && Glob.Accepts(init, v[k..][..j]);
        m := k + j;
      }
      Slices(v, k, m);
      AcceptsBoth(a, init, v[..m], k);
    }
  }

  lemma {:induction false} AcceptsSplits(a: seq<Glob.Token>, b: seq<Glob.Token>, v: Bytes) returns (k: nat)
    requires Glob.Accepts(a + b, v)
    ensures k <= |v| && Glob.Accepts(a, v[..k]) && Glob.Accepts(b, v[k..])
    decreases |b|
  {
    if b == [] {
      assert a + b == a && v[..|v|] == v && v[|v|..] == [];
      return |v|;
    }
    var init, t, m := b[..|b| - 1], b[|b| - 1], |v| - 1;
    assert b == init + [t];
    LastOf(a, init, t, v);
    if t.Star? {
      m :| 0 <= m <= |v| && Glob.Accepts(a + init, v[..m]);
    }
    k := AcceptsSplits(a, init, v[..m]);
    Slices(v, k, m);
    LastAlone(init, t, v[k..]);
  }

  lemma {:induction false} AcceptsOne(t: Glob.Token, v: Bytes)
    ensures Glob.Accepts([t], v) <==> t.Star? || v == [t.c]
  {
    assert [t][..0] == [];
    if t.Star? {
      assert v[..0] == [] && Glob.Accepts([], v[..0]);
    } else if v != [] && v[..|v| - 1] == [] {
      assert v == v[..|v| - 1] + [v[|v| - 1]];
    }
  }

  lemma {:induction false} AcceptsByte(c: Byte, ts: seq<Glob.Token>, v: Bytes)
    ensures Glob.Accepts([Glob.Lit(c)] + ts, v) <==> v != [] && v[0] == c && Glob.Accepts(ts, v[1..])
  {
    var t := Glob.Lit(c);
    if Glob.Accepts([t] + ts, v) {
      var k := AcceptsSplits([t], ts, v);
      AcceptsOne(t, v[..k]);
      assert v[..k][0] == v[0];
    }
    if v != [] && v[0] == c && Glob.Accepts(ts, v[1..]) {
      AcceptsOne(t, v[..1]);
      AcceptsBoth([t], ts, v, 1);
    }
  }

  lemma {:induction false} AcceptsStar(ts: seq<Glob.Token>, v: Bytes)
    ensures Glob.Accepts([Glob.Star] + ts, v) <==> exists k :: 0 <= k <= |v| && Glob.Accepts(ts, v[k..])
  {
    if Glob.Accepts([Glob.Star] + ts, v) {
      var k := AcceptsSplits([Glob.Star], ts, v);
    }
    if k :| 0 <= k <= |v| && Glob.Accepts(ts, v[k..]) {
      AcceptsOne(Glob.Star, v[..k]);
      AcceptsBoth([Glob.Star], ts, v, k);
    }
  }

  lemma {:induction false} TokensOf(t: Bytes)
    requires t != []
    ensures t[0] == 42 ==> Glob.Tokens(t) == Glob.Cons(Glob.Star, Glob.Tokens(t[1..]))
    ensures t[0] == 92 ==>
              Glob.Tokens(t) == if |t| > 1 && (t[1] == 42 || t[1] == 92)
                                then Glob.Cons(Glob.Lit(t[1]), Glob.Tokens(t[2..])) else None
    ensures t[0] != 42 && t[0] != 92 ==> Glob.Tokens(t) == Glob.Cons(Glob.Lit(t[0]), Glob.Tokens(t[1..]))
  {
  }

  /** The tokens of a pattern text accept exactly what it stands for; a text with an invalid escape accepts nothing. */
  lemma {:induction false} WildcardGlobs(t: Bytes, v: Bytes)
    ensures Globs(t, v) <==> Glob.Tokens(t).Some? && Glob.Accepts(Glob.Tokens(t).value, v)
    decreases |t|, 0
  {
    if t != [] {
      TokensOf(t);
      if t[0] == 42 {
        StarGlobs(t, v);
      } else if t[0] != 92 {
        ByteGlobs(t[0], t[1..], v);
      } else if |t| > 1 && (t[1] == 42 || t[1] == 92) {
        ByteGlobs(t[1], t[2..], v);
      }
    }
  }

  lemma {:induction false} StarGlobs(t: Bytes, v: Bytes)
    requires t != [] && t[0] == 42 && Glob.Tokens(t) == Glob.Cons(Glob.Star, Glob.Tokens(t[1..]))
    ensures Globs(t, v) <==> Glob.Tokens(t).Some? && Glob.Accepts(Glob.Tokens(t).value, v)
    decreases |t| - 1, 1
  {
    var rest := Glob.Tokens(t[1..]);
    forall k | 0 <= k <= |v| ensures Globs(t[1..], v[k..]) <==> rest.Some? && Glob.Accepts(rest.value, v[k..]) {
      WildcardGlobs(t[1..], v[k..]);
    }
    if rest.Some? {
      AcceptsStar(rest.value, v);
    }
  }

  lemma {:induction false} ByteGlobs(c: Byte, t: Bytes, v: Bytes)
    ensures v != [] && v[0] == c && Globs(t, v[1..]) <==>
            Glob.Tokens(t).Some? && Glob.Accepts([Glob.Lit(c)] + Glob.Tokens(t).value, v)
    decreases |t|, 1
  {
    if Glob.Tokens(t).Some? {
      AcceptsByte(c, Glob.Tokens(t).value, v);
    }
    if v != [] {
      WildcardGlobs(t, v[1..]);
    }
  }

  /** No star follows another, and 92 only escapes a star or itself. */
  ghost predicate GoodEscapes(t: Bytes, afterStar: bool)
    decreases |t|
  {
    if t == [] then true
    else if t[0] == 42 then !afterStar && GoodEscapes(t[1..], true)
    else if t[0] == 92 then |t| > 1 && (t[1] == 42 || t[1] == 92) && GoodEscapes(t[2..], false)
    else GoodEscapes(t[1..], false)
  }

  // --------------------------------------------------------- paths and values

  /** path names the property prop, or ends in ".*" (46 and 42) and what comes before names what is above prop. */
  ghost predicate Names(path: Bytes, prop: Bytes) {
    prop == path ||
    exists base: Bytes, rest: Bytes :: base != [] && path == base + [46, 42] && prop == base + [46] + rest
  }

  lemma {:induction false} NamesRefers(path: Bytes, prop: Bytes)
    ensures RefersTo(path, prop) <==> Names(path, prop)
  {
    if prop != path && RefersTo(path, prop) {
      var base := WildBase(path).value;
      assert path == base + [46, 42];
      assert prop == base + [46] + prop[|base| + 1..];
    }
    if base: Bytes, rest: Bytes :| base != [] && path == base + [46, 42] && prop == base + [46] + rest {
      assert path[..|path| - 2] == base && path[|path| - 2..] == [46, 42];
      assert prop[|base|] == 46 && prop[..|base|] == base;
    }
  }

  /** v is one of the values of the event a condition on path looks at, folded. */
  ghost predicate IsValue(w: World, event: Event, path: Bytes, v: Bytes) {
    exists i, j :: ValueAt(w, event, path, i, j, v)
  }

  ghost predicate ValueAt(w: World, event: Event, path: Bytes, i: int, j: int, v: Bytes) {
    0 <= i < |event| && 0 <= j < |event[i].values| && Names(path, event[i].path) && v == w.fold(event[i].values[j])
  }

  lemma {:induction false} FoldConcat(w: World, a: seq<Bytes>, b: seq<Bytes>, v: Bytes)
    ensures v in FoldAll(w, a + b) <==> v in FoldAll(w, a) || v in FoldAll(w, b)
  {
    var ab := a + b;
    assert forall i :: 0 <= i < |a| ==> FoldAll(w, ab)[i] == FoldAll(w, a)[i];
    assert forall i :: 0 <= i < |b| ==> FoldAll(w, ab)[|a| + i] == FoldAll(w, b)[i];
    assert forall i :: 0 <= i < |ab| ==>
      FoldAll(w, ab)[i] == if i < |a| then FoldAll(w, a)[i] else FoldAll(w, b)[i - |a|];
  }

  lemma {:induction false} FirstValues(w: World, event: Event, path: Bytes, v: Bytes)
    requires event != []
    ensures (exists j :: ValueAt(w, event, path, 0, j, v)) <==>
            Names(path, event[0].path) && v in FoldAll(w, event[0].values)
  {
    var vs := event[0].values;
    if Names(path, event[0].path) && v in FoldAll(w, vs) {
      var j :| 0 <= j < |vs| && FoldAll(w, vs)[j] == v;
      assert ValueAt(w, event, path, 0, j, v);
    }
    if j :| ValueAt(w, event, path, 0, j, v) {
      assert FoldAll(w, vs)[j] == v;
    }
  }

  lemma {:induction false} IsValueFirst(w: World, event: Event, path: Bytes, v: Bytes)
    requires event != []
    ensures IsValue(w, event, path, v) <==>
            (exists j :: ValueAt(w, event, path, 0, j, v)) || IsValue(w, event[1..], path, v)
  {
    if i, j :| ValueAt(w, event, path, i, j, v) {
      assert i > 0 ==> ValueAt(w, event[1..], path, i - 1, j, v);
    }
    if i, j :| ValueAt(w, event[1..], path, i, j, v) {
      assert ValueAt(w, event, path, i + 1, j, v);
    }
  }

  /** The naive evaluation looks at exactly these values. */
  lemma {:induction false} FoldedValues(w: World, event: Event, path: Bytes, v: Bytes)
    ensures v in FoldedAt(w, event, path) <==> IsValue(w, event, path, v)
  {
    if event != [] {
      NamesRefers(path, event[0].path);
      FoldedValues(w, event[1..], path, v);
      FirstValues(w, event, path, v);
      IsValueFirst(w, event, path, v);
      FoldConcat(w, if RefersTo(path, event[0].path) then event[0].values else [], ValuesAt(event[1..], path), v);
    }
  }

  // ---------------------------------------------------------------- patterns

  /** What a pattern with no sub-patterns but bounds says of one value. */
  ghost predicate Says(w: World, p: Pattern, v: Bytes) {
    match p.typ
    case Equals => v == w.fold(p.value)
    case Prefix => exists rest :: v == w.fold(p.value) + rest
    case Suffix => exists rest :: v == rest + w.fold(p.value)
    case Wildcard => Globs(w.fold(p.value), v)
    case CIDR =>
      w.parsePrefix(p.value).Some? && w.parseIP(v).Some? && SameBits(w.parsePrefix(p.value).value, w.parseIP(v).value)
    case _ => w.parseNumber(p.value).Some? && NumberSays(w, p.typ, w.parseNumber(p.value).value, v)
  }

  ghost predicate NumberSays(w: World, t: PatternType, b: Num, v: Bytes) {
    w.parseNumber(v).Some? && Compares(t, w.parseNumber(v).value, b)
  }

  /** The address has the bits of the prefix. */
  ghost predicate SameBits(prefix: IPPrefix, a: seq<bool>) {
    |a| == |prefix.addr| && prefix.bits <= |a| && forall i :: 0 <= i < prefix.bits ==> a[i] == prefix.addr[i]
  }

  predicate IsSimple(t: PatternType) {
    t !in {AnyOf, AllOf, AnythingBut, Exists, Unknown, Between}
  }

  lemma {:induction false} AffixSays(v: Bytes, u: Bytes)
    ensures u <= v <==> exists rest :: v == u + rest
    ensures HasSuffix(v, u) <==> exists rest :: v == rest + u
  {
    if u <= v {
      assert v == u + v[|u|..];
    }
    if HasSuffix(v, u) {
      assert v == v[..|v| - |u|] + u;
    }
  }

  lemma {:induction false} BitsSay(prefix: IPPrefix, a: seq<bool>)
    ensures prefix.Contains(a) <==> SameBits(prefix, a)
  {
    if SameBits(prefix, a) {
      assert a[..prefix.bits] == prefix.addr[..prefix.bits];
    }
    if prefix.Contains(a) {
      forall i | 0 <= i < prefix.bits ensures a[i] == prefix.addr[i] {
        assert a[..prefix.bits][i] == prefix.addr[..prefix.bits][i];
      }
    }
  }

  lemma {:induction false} SimpleSays(w: World, p: Pattern, v: Bytes)
    requires IsSimple(p.typ)
    ensures ValueMatches(w, p, v) <==> Says(w, p, v)
  {
    AffixSays(v, w.fold(p.value));
    WildcardGlobs(w.fold(p.value), v);
    if p.typ == CIDR {
      if w.parsePrefix(p.value).Some? && w.parseIP(v).Some? {
        BitsSay(w.parsePrefix(p.value).value, w.parseIP(v).value);
      }
    } else if p.typ in {LessThan, LessThanOrEqual, GreaterThan, GreaterThanOrEqual, NumericEquals} {
      if w.parseNumber(p.value).Some? && w.parseNumber(v).Some? {
        BoundMeaning(p.typ, w.parseNumber(v).value, w.parseNumber(p.value).value);
      }
    }
  }

  function Single(path: Bytes, p: Pattern): ConditionSet {
    ConditionSet([Condition(path, p, NoOr)])
  }

  lemma {:induction false} SingleHolds(w: World, path: Bytes, p: Pattern, event: Event)
    ensures RuleHolds(w, Single(path, p), event) <==> PlainHolds(w, path, p, event)
  {
    var c := Condition(path, p, NoOr);
    assert Single(path, p).conds[0] == c;
    assert ConditionHolds(w, c, event) <==> PlainHolds(w, path, p, event);
  }

  lemma {:induction false} SomeValueSays(w: World, p: Pattern, vs: seq<Bytes>)
    requires IsSimple(p.typ)
    ensures PatternHolds(w, p, vs) <==> exists v :: v in vs && Says(w, p, v)
  {
    forall i | 0 <= i < |vs| ensures ValueMatches(w, p, vs[i]) <==> Says(w, p, vs[i]) {
      SimpleSays(w, p, vs[i]);
    }
  }

  /** A rule with a single condition holds if the pattern says so of some value at its path. */
  lemma {:induction false} SingleMeaning(w: World, path: Bytes, p: Pattern, event: Event)
    requires IsSimple(p.typ)
    ensures RuleHolds(w, Single(path, p), event) <==> exists v :: IsValue(w, event, path, v) && Says(w, p, v)
  {
    var vs := FoldedAt(w, event, path);
    SingleHolds(w, path, p, event);
    SomeValueSays(w, p, vs);
    forall v ensures v in vs <==> IsValue(w, event, path, v) {
      FoldedValues(w, event, path, v);
    }
  }

  /** "true" demands that there is a value at the path, any other text that there is none. */
  lemma {:induction false} ExistsMeaning(w: World, path: Bytes, p: Pattern, event: Event)
    requires p.typ == Exists
    ensures RuleHolds(w, Single(path, p), event) <==>
            ((exists v :: IsValue(w, event, path, v)) <==> p.value == [116, 114, 117, 101])
  {
    var vs := FoldedAt(w, event, path);
    SingleHolds(w, path, p, event);
    forall v ensures v in vs <==> IsValue(w, event, path, v) {
      FoldedValues(w, event, path, v);
    }
    if |vs| > 0 {
      assert IsValue(w, event, path, vs[0]);
    }
  }
}
