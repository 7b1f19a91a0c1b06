/**
 * Normalized patterns: how they combine, the keys that stand for them, and
 * how a key is parsed back (normalize.go).
 */
module Expressions {
  import opened ByteStrings
  import opened Sorting
  import opened Decimal

  datatype LeafKind = LeafEquals | LeafPrefix | LeafSuffix | LeafGlob | LeafExists | LeafNumber | LeafCIDR

  datatype Op = AnyOf | AllOf

  datatype Expr =
    | Leaf(kind: LeafKind, value: Bytes)
    | Nary(op: Op, subs: seq<Expr>)
    | Not(sub: Expr)
    | Absent

  function LeafTag(kind: LeafKind): Byte {
    match kind
    case LeafEquals => '=' as int
    case LeafPrefix => '^' as int
    case LeafSuffix => '$' as int
    case LeafGlob => '~' as int
    case LeafExists => '?' as int
    case LeafNumber => '#' as int
    case LeafCIDR => '@' as int
  }

  function TagKind(tag: Byte): (kind: Option<LeafKind>)
    ensures kind.Some? ==> LeafTag(kind.value) == tag
    ensures forall k :: LeafTag(k) == tag ==> kind == Some(k)
  {
    if tag == '=' as int then Some(LeafEquals)
    else if tag == '^' as int then Some(LeafPrefix)
    else if tag == '$' as int then Some(LeafSuffix)
    else if tag == '~' as int then Some(LeafGlob)
    else if tag == '?' as int then Some(LeafExists)
    else if tag == '#' as int then Some(LeafNumber)
    else if tag == '@' as int then Some(LeafCIDR)
    else None
  }

  function OpTag(op: Op): Byte {
    match op
    case AnyOf => '|' as int
    case AllOf => '&' as int
  }

  const NOT: Byte := '!' as int

  predicate IsOpTag(tag: Byte) {
    tag == OpTag(AnyOf) || tag == OpTag(AllOf) || tag == NOT
  }

  const DASH: Byte := '-' as int

  /** The unambiguous encoding of an expression. */
  function Key(e: Expr): Bytes
    decreases e, 1
  {
    match e
    case Leaf(kind, v) => [LeafTag(kind)] + Itoa(|v|) + [COLON] + v
    case Nary(op, subs) => [OpTag(op), OPEN] + Keys(subs) + [CLOSE]
    case Not(sub) => [NOT, OPEN] + Key(sub) + [CLOSE]
    case Absent => [DASH]
  }

  function Keys(es: seq<Expr>): Bytes
    decreases es, 0
  {
    if es == [] then [] else Key(es[0]) + Keys(es[1..])
  }

  predicate KeyLeq(a: Expr, b: Expr) {
    Leq(Key(a), Key(b))
  }

  predicate SameKey(a: Expr, b: Expr) {
    Key(a) == Key(b)
  }

  predicate HasOp(e: Expr, op: Op) {
    e.Nary? && e.op == op
  }

  /** Replaces nested expressions with the operator op by their parts. */
  function Flatten(op: Op, subs: seq<Expr>): seq<Expr> {
    if subs == [] then []
    else (if HasOp(subs[0], op) then subs[0].subs else [subs[0]]) + Flatten(op, subs[1..])
  }

  /** combine: the anyOf or allOf of subs. */
  function Combine(op: Op, subs: seq<Expr>): Expr {
    var flat := Compact(SameKey, Sort(KeyLeq, Flatten(op, subs)));
    if |flat| == 1 then flat[0] else Nary(op, flat)
  }

  function Negate(e: Expr): Expr {
    if e.Not? then e.sub else Not(e)
  }

  lemma {:induction false} FlattenNext(op: Op, flat: seq<Expr>, subs: seq<Expr>, i: nat)
    requires i < |subs|
    ensures var more := if HasOp(subs[i], op) then subs[i].subs else [subs[i]];
            flat + Flatten(op, subs[i..]) == flat + more + Flatten(op, subs[i + 1..])
  {
    assert subs[i..][1..] == subs[i + 1..];
  }

  /** The loop of combine that flattens its operands. */
  method FlattenAll(op: Op, subs: seq<Expr>) returns (flat: seq<Expr>)
    ensures flat == Flatten(op, subs)
  {
    flat := [];
    assert subs[0..] == subs;
    for i := 0 to |subs|
      invariant flat + Flatten(op, subs[i..]) == Flatten(op, subs)
    {
      FlattenNext(op, flat, subs, i);
      if HasOp(subs[i], op) {
        flat := flat + subs[i].subs;
      } else {
        flat := flat + [subs[i]];
      }
    }
  }

  /** combine */
  method CombineAll(op: Op, subs: seq<Expr>) returns (e: Expr)
    ensures e == Combine(op, subs)
  {
    var flat := FlattenAll(op, subs);
    flat := Compact(SameKey, Sort(KeyLeq, flat));
    if |flat| == 1 {
      return flat[0];
    }
    return Nary(op, flat);
  }

  // ------------------------------------------------------------- parsing

  /** strings.IndexByte. */
  function IndexByte(s: Bytes, c: Byte): (i: int)
    ensures -1 <= i < |s|
    ensures i >= 0 ==> s[i] == c
  {
    if s == [] then -1
    else if s[0] == c then 0
    else
      var i := IndexByte(s[1..], c);
      if i < 0 then -1 else i + 1
  }

  datatype Parsed<+T> = Panic | Parsed(value: T, rest: Bytes)

  /** parseExpr: the expression at the start of s, and the rest of s. */
  function ParseExpr(s: Bytes): (r: Parsed<Expr>)
    ensures r.Parsed? ==> |r.rest| < |s|
    decreases |s|, 0
  {
    if s == [] then Panic
    else if TagKind(s[0]).Some? then ParseLeaf(TagKind(s[0]).value, s)
    else if |s| < 2 || !IsOpTag(s[0]) then Panic
    else Finish(s[0], ParseSubs(s[2..]))
  }

  /** Combines the operands that were parsed. */
  function Finish(tag: Byte, subs: Parsed<seq<Expr>>): Parsed<Expr> {
    match subs
    case Panic => Panic
    case Parsed(es, rest) =>
      if tag == OpTag(AnyOf) then Parsed(Combine(AnyOf, es), rest)
      else if tag == OpTag(AllOf) then Parsed(Combine(AllOf, es), rest)
      else if es == [] then Panic
      else Parsed(Negate(es[0]), rest)
  }

  function ParseLeaf(kind: LeafKind, s: Bytes): (r: Parsed<Expr>)
    requires s != []
    ensures r.Parsed? ==> |r.rest| < |s|
  {
    var colon := IndexByte(s, COLON);
    if colon < 1 then Panic
    else
      match Atoi(s[1..colon])
      case None => Panic
      case Some(n) =>
        var end := colon + 1 + n;
        if n < 0 || end > |s| then Panic else Parsed(Leaf(kind, s[colon + 1..end]), s[end..])
  }

  /** The operands up to the closing parenthesis, which is dropped. */
  function ParseSubs(s: Bytes): (r: Parsed<seq<Expr>>)
    ensures r.Parsed? ==> |r.rest| < |s|
    decreases |s|, 1
  {
    if s == [] then Panic
    else if s[0] == CLOSE then Parsed([], s[1..])
    else
      match ParseExpr(s)
      case Panic => Panic
      case Parsed(e, rest) =>
        match ParseSubs(rest)
        case Panic => Panic
        case Parsed(es, rest') => Parsed([e] + es, rest')
  }

  function ParseKey(key: Bytes): Option<Expr> {
    match ParseExpr(key)
    case Panic => None
    case Parsed(e, rest) => if rest == [] then Some(e) else None
  }

  // ----------------------------------------------------- canonical forms

  /** What newLeaf, combine and negate build: sorted, unique, flat, without double negation. */
  ghost predicate Canonical(e: Expr)
    decreases e, 1
  {
    match e
    case Leaf(_, _) => true
    case Nary(op, subs) =>
      |subs| > 1 && AllCanonical(subs) && NoneHas(op, subs) && Ascending(subs)
    case Not(sub) => !sub.Not? && Canonical(sub)
    case Absent => false
  }

  ghost predicate AllCanonical(es: seq<Expr>)
    decreases es, 0
  {
    forall i :: 0 <= i < |es| ==> Canonical(es[i])
  }

  ghost predicate NoneHas(op: Op, es: seq<Expr>) {
    forall i :: 0 <= i < |es| ==> !HasOp(es[i], op)
  }

  ghost predicate Ascending(es: seq<Expr>) {
    forall i, j :: 0 <= i < j < |es| ==> KeyLeq(es[i], es[j]) && !SameKey(es[i], es[j])
  }

  lemma KeyOrder()
    ensures Preorder(KeyLeq)
    ensures forall a, b :: SameKey(a, b) <==> KeyLeq(a, b) && KeyLeq(b, a)
  {
    forall a: Expr, b: Expr
      ensures (KeyLeq(a, b) || KeyLeq(b, a)) && (SameKey(a, b) <==> KeyLeq(a, b) && KeyLeq(b, a))
    {
      LeqTotal(Key(a), Key(b));
      if KeyLeq(a, b) && KeyLeq(b, a) {
        LeqAntisymmetric(Key(a), Key(b));
      }
    }
    forall a: Expr, b: Expr, c: Expr | KeyLeq(a, b) && KeyLeq(b, c) ensures KeyLeq(a, c) {
      LeqTransitive(Key(a), Key(b), Key(c));
    }
  }

  lemma {:induction false} FlattenCanonical(op: Op, subs: seq<Expr>)
    requires AllCanonical(subs)
    ensures AllCanonical(Flatten(op, subs)) && NoneHas(op, Flatten(op, subs))
    ensures |Flatten(op, subs)| >= |subs|
  {
    if subs != [] {
      var e := subs[0];
      assert Canonical(e);
      FlattenCanonical(op, subs[1..]);
      var first := if HasOp(e, op) then e.subs else [e];
      assert AllCanonical(first) && NoneHas(op, first);
      var rest := Flatten(op, subs[1..]);
      forall i | 0 <= i < |first + rest| ensures Canonical((first + rest)[i]) {
        assert i >= |first| ==> Canonical(rest[i - |first|]);
      }
    }
  }

  /** combine builds canonical expressions from canonical ones. */
  lemma CombineCanonical(op: Op, subs: seq<Expr>)
    requires subs != [] && AllCanonical(subs)
    ensures Canonical(Combine(op, subs))
  {
    var flat := Flatten(op, subs);
    var sorted := Sort(KeyLeq, flat);
    var compact := Compact(SameKey, sorted);
    KeyOrder();
    FlattenCanonical(op, subs);
    SortCorrect(KeyLeq, flat);
    CompactMembers(SameKey, sorted);
    CompactStrict(KeyLeq, SameKey, sorted);
    forall i | 0 <= i < |compact| ensures Canonical(compact[i]) && !HasOp(compact[i], op) {
      assert compact[i] in sorted && compact[i] in flat;
    }
    var y := CompactCovers(SameKey, sorted, 0);
  }

  lemma NegateCanonical(e: Expr)
    requires Canonical(e)
    ensures Canonical(Negate(e))
  {
  }

  lemma {:induction false} FlattenNothing(op: Op, subs: seq<Expr>)
    requires NoneHas(op, subs)
    ensures Flatten(op, subs) == subs
  {
    if subs != [] {
      FlattenNothing(op, subs[1..]);
      assert subs == [subs[0]] + subs[1..];
    }
  }

  lemma {:induction false} CompactNothing(es: seq<Expr>)
    requires Ascending(es)
    ensures Compact(SameKey, es) == es
  {
    if |es| > 1 {
      CompactNothing(es[..|es| - 1]);
      assert es == es[..|es| - 1] + [es[|es| - 1]];
    }
  }

  /** Combining the operands of a canonical expression again changes nothing. */
  lemma CombineIdempotent(op: Op, subs: seq<Expr>)
    requires Canonical(Nary(op, subs))
    ensures Combine(op, subs) == Nary(op, subs)
  {
    FlattenNothing(op, subs);
    SortSorted(KeyLeq, subs);
    CompactNothing(subs);
  }

  // ------------------------------------------------- parseKey inverts Key

  lemma {:induction false} IndexByteAfter(u: Bytes, c: Byte, v: Bytes)
    requires forall i :: 0 <= i < |u| ==> u[i] != c
    ensures IndexByte(u + [c] + v, c) == |u|
  {
    var s := u + [c] + v;
    if u != [] {
      IndexByteAfter(u[1..], c, v);
      assert s[1..] == u[1..] + [c] + v;
    }
  }

  lemma LeafParts(head: Bytes, v: Bytes, rest: Bytes)
    requires |head| > 0 && forall i :: 0 <= i < |head| ==> head[i] != COLON
    ensures var s := head + [COLON] + v + rest;
            && s[0] == head[0] && IndexByte(s, COLON) == |head|
            && s[1..|head|] == head[1..]
            && s[|head| + 1..|head| + 1 + |v|] == v
            && s[|head| + 1 + |v|..] == rest
  {
    assert head + [COLON] + v + rest == head + [COLON] + (v + rest);
    IndexByteAfter(head, COLON, v + rest);
  }

  lemma ParseLeafKey(kind: LeafKind, v: Bytes, rest: Bytes)
    ensures ParseExpr(Key(Leaf(kind, v)) + rest) == Parsed(Leaf(kind, v), rest)
  {
    var head := [LeafTag(kind)] + Itoa(|v|);
    var s := head + [COLON] + v + rest;
    LeafParts(head, v, rest);
    AtoiItoa(|v|);
    assert head[1..] == Itoa(|v|);
    assert ParseExpr(s) == ParseLeaf(kind, s);
  }

  lemma {:induction false} ParseExprKey(e: Expr, rest: Bytes)
    requires Canonical(e)
    ensures ParseExpr(Key(e) + rest) == Parsed(e, rest)
    decreases e, 1
  {
    match e
    case Leaf(kind, v) => ParseLeafKey(kind, v, rest);
    case Nary(op, subs) =>
      ParseSubsKeys(subs, rest);
      CombineIdempotent(op, subs);
      ParseOperands(OpTag(op), Keys(subs), subs, rest);
    case Not(sub) =>
      ParseExprKey(sub, [CLOSE] + rest);
      KeyStart(sub);
      ParseLast(Key(sub) + ([CLOSE] + rest), sub, rest);
      ParseOperands(NOT, Key(sub), [sub], rest);
  }

  lemma DropHead(head: Bytes, body: Bytes, tail: Bytes, rest: Bytes)
    requires |head| == 2
    ensures head + body + tail + rest == head + (body + (tail + rest))
    ensures (head + body + tail + rest)[0] == head[0]
    ensures (head + body + tail + rest)[2..] == body + (tail + rest)
  {
    var s := head + (body + (tail + rest));
    assert head + body + tail + rest == s;
    assert s[2..] == body + (tail + rest);
  }

  lemma ParseOperands(tag: Byte, body: Bytes, subs: seq<Expr>, rest: Bytes)
    requires IsOpTag(tag)
    requires ParseSubs(body + ([CLOSE] + rest)) == Parsed(subs, rest)
    ensures ParseExpr([tag, OPEN] + body + [CLOSE] + rest) == Finish(tag, Parsed(subs, rest))
  {
    var s := [tag, OPEN] + body + [CLOSE] + rest;
    DropHead([tag, OPEN], body, [CLOSE], rest);
    ParseTagged(s, ParseSubs(s[2..]));
  }

  lemma ParseTagged(s: Bytes, subs: Parsed<seq<Expr>>)
    requires |s| >= 2 && IsOpTag(s[0]) && ParseSubs(s[2..]) == subs
    ensures ParseExpr(s) == Finish(s[0], subs)
  {
    assert TagKind(s[0]).None?;
  }

  lemma ParseLast(s: Bytes, e: Expr, rest: Bytes)
    requires s != [] && s[0] != CLOSE && ParseExpr(s) == Parsed(e, [CLOSE] + rest)
    ensures ParseSubs(s) == Parsed([e], rest)
  {
    var tail := [CLOSE] + rest;
    assert tail[1..] == rest;
    assert ParseSubs(tail) == Parsed([], rest);
    assert [e] + [] == [e];
  }

  lemma KeyStart(e: Expr)
    ensures |Key(e)| > 0 && Key(e)[0] != CLOSE
  {
  }

  lemma {:induction false} ParseSubsKeys(es: seq<Expr>, rest: Bytes)
    requires AllCanonical(es)
    ensures ParseSubs(Keys(es) + ([CLOSE] + rest)) == Parsed(es, rest)
    decreases es, 0
  {
    var s := Keys(es) + ([CLOSE] + rest);
    if es == [] {
      assert s == [CLOSE] + rest && s[1..] == rest;
    } else {
      assert Canonical(es[0]);
      KeyStart(es[0]);
      assert s == Key(es[0]) + (Keys(es[1..]) + ([CLOSE] + rest));
      ParseExprKey(es[0], Keys(es[1..]) + ([CLOSE] + rest));
      ParseSubsKeys(es[1..], rest);
      assert es == [es[0]] + es[1..];
    }
  }

  /** parseKey inverts the keys of all canonical expressions. */
  lemma ParseKeyInvertsKey(e: Expr)
    requires Canonical(e)
    ensures ParseKey(Key(e)) == Some(e)
  {
    ParseExprKey(e, []);
    assert Key(e) + [] == Key(e);
  }

  /** Two canonical expressions with the same key are the same expression. */
  lemma KeyInjective(a: Expr, b: Expr)
    requires Canonical(a) && Canonical(b) && Key(a) == Key(b)
    ensures a == b
  {
    ParseKeyInvertsKey(a);
    ParseKeyInvertsKey(b);
  }
}
