/** The value index of a group: which of its leaves match a value (index.go). */
module ValueIndex {
  import opened ByteStrings
  import opened Expressions
  import opened Semantics
  import Rules
  import Glob
  import GlobTrie
  import GlobNfa
  import NumIndex
  import CidrIndex

  datatype Index = Index(
    equals: map<Bytes, nat>,
    prefixes: map<Bytes, nat>,
    suffixes: map<Bytes, nat>,
    prefixLens: seq<nat>,
    suffixLens: seq<nat>,
    glob: GlobTrie.Trie,
    exists_: Option<nat>,
    num: NumIndex.Index,
    cidr: CidrIndex.Index,
    kinds: set<LeafKind>)

  function Empty(): Index {
    Index(map[], map[], map[], [], [], GlobTrie.Empty(), None, NumIndex.EMPTY, CidrIndex.EMPTY, {})
  }

  /** The leaves normalization builds: their values can be read by the index. */
  ghost predicate GoodLeaf(w: World, kind: LeafKind, value: Bytes) {
    match kind
    case LeafEquals | LeafPrefix | LeafSuffix => true
    case LeafGlob => Glob.Tokens(value).Some? && GlobTrie.NoDoubleStar(Glob.Tokens(value).value)
    case LeafExists => value == []
    case LeafNumber => NumIndex.Nonempty(w.parseInterval(value))
    case LeafCIDR => w.parsePrefix(value).Some? && w.prefixText(w.parsePrefix(value).value) == value
  }

  ghost predicate GoodExpr(w: World, e: Expr)
    decreases e
  {
    match e
    case Leaf(kind, value) => GoodLeaf(w, kind, value)
    case Nary(_, subs) => forall s :: s in subs ==> GoodExpr(w, s)
    case Not(sub) => GoodExpr(w, sub)
    case Absent => true
  }

  /** Leaf number i of ls is the leaf (kind, value). */
  ghost predicate IsLeaf(ls: seq<Expr>, i: nat, kind: LeafKind, value: Bytes) {
    i < |ls| && ls[i] == Leaf(kind, value)
  }

  // -------------------------------------- what each structure holds for ls

  ghost predicate MapHolds(m: map<Bytes, nat>, kind: LeafKind, ls: seq<Expr>) {
    forall v: Bytes, i: nat :: (v in m && m[v] == i) <==> IsLeaf(ls, i, kind, v)
  }

  ghost predicate LengthsHold(lens: seq<nat>, m: map<Bytes, nat>) {
    CidrIndex.Ascending(lens) && forall v :: v in m ==> |v| in lens
  }

  ghost predicate GlobHolds(t: GlobTrie.Trie, ls: seq<Expr>) {
    && GlobTrie.Valid(t)
    && forall ts, i: nat :: GlobTrie.Registered(t, ts, i) <==> GlobLeaf(ls, ts, i)
  }

  ghost predicate GlobLeaf(ls: seq<Expr>, ts: seq<Glob.Token>, i: nat) {
    i < |ls| && ls[i].Leaf? && ls[i].kind == LeafGlob && Glob.Tokens(ls[i].value) == Some(ts)
  }

  ghost predicate ExistsHolds(x: Option<nat>, ls: seq<Expr>) {
    forall i: nat :: x == Some(i) <==> IsLeaf(ls, i, LeafExists, [])
  }

  ghost predicate NumHolds(w: World, n: NumIndex.Index, ls: seq<Expr>) {
    && NumIndex.Valid(n)
    && forall e: NumIndex.NumEntry :: e in NumIndex.Entries(n) <==> NumLeaf(w, ls, e)
  }

  ghost predicate NumLeaf(w: World, ls: seq<Expr>, e: NumIndex.NumEntry) {
    && e.leaf < |ls| && ls[e.leaf].Leaf? && ls[e.leaf].kind == LeafNumber
    && e.iv == w.parseInterval(ls[e.leaf].value)
  }

  ghost predicate CidrHolds(w: World, x: CidrIndex.Index, ls: seq<Expr>) {
    && CidrIndex.Valid(x)
    && forall p: Rules.IPPrefix, i: nat :: CidrIndex.Registered(x, p, i) <==> CidrLeaf(w, ls, p, i)
  }

  ghost predicate CidrLeaf(w: World, ls: seq<Expr>, p: Rules.IPPrefix, i: nat) {
    i < |ls| && ls[i].Leaf? && ls[i].kind == LeafCIDR && w.parsePrefix(ls[i].value) == Some(p)
  }

  ghost predicate KindsHold(kinds: set<LeafKind>, ls: seq<Expr>) {
    forall i :: 0 <= i < |ls| ==> ls[i].Leaf? && ls[i].kind in kinds
  }

  /** The index holds exactly the leaves ls, by number. */
  ghost predicate Represents(w: World, x: Index, ls: seq<Expr>) {
    && MapHolds(x.equals, LeafEquals, ls)
    && MapHolds(x.prefixes, LeafPrefix, ls) && LengthsHold(x.prefixLens, x.prefixes)
    && MapHolds(x.suffixes, LeafSuffix, ls) && LengthsHold(x.suffixLens, x.suffixes)
    && GlobHolds(x.glob, ls)
    && ExistsHolds(x.exists_, ls)
    && NumHolds(w, x.num, ls)
    && CidrHolds(w, x.cidr, ls)
    && KindsHold(x.kinds, ls)
  }

  lemma {:induction false} EmptyRepresents(w: World)
    ensures Represents(w, Empty(), [])
  {
    var t := GlobTrie.Empty();
    assert forall n: nat, tok, m: nat :: !GlobTrie.Linked(t, n, tok, m);
    forall ts, i: nat ensures !GlobTrie.Registered(t, ts, i) {
      forall ts' | GlobTrie.Walk(t, ts').Some? ensures t[GlobTrie.Walk(t, ts').value] == GlobTrie.NEW_NODE {
      }
    }
  }

  // ------------------------------------------------------------------ add

  lemma {:induction false} MapAdd(m: map<Bytes, nat>, kind: LeafKind, ls: seq<Expr>, e: Expr)
    requires MapHolds(m, kind, ls) && e.Leaf? && e !in ls
    ensures MapHolds(if e.kind == kind then m[e.value := |ls|] else m, kind, ls + [e])
  {
    var m', ls' := if e.kind == kind then m[e.value := |ls|] else m, ls + [e];
    forall v: Bytes, i: nat ensures (v in m' && m'[v] == i) <==> IsLeaf(ls', i, kind, v) {
      assert IsLeaf(ls', i, kind, v) <==> IsLeaf(ls, i, kind, v) || (i == |ls| && e == Leaf(kind, v));
      if e.kind == kind && v == e.value {
        assert !IsLeaf(ls, i, kind, v);
      }
    }
  }

  lemma {:induction false} LengthsAdd(lens: seq<nat>, m: map<Bytes, nat>, v: Bytes, i: nat)
    requires LengthsHold(lens, m)
    ensures LengthsHold(CidrIndex.AddLength(lens, |v|), m[v := i])
  {
    CidrIndex.AddLengthAscending(lens, |v|);
  }

  lemma {:induction false} GlobAdd(t: GlobTrie.Trie, t': GlobTrie.Trie, ls: seq<Expr>, e: Expr)
    requires GlobHolds(t, ls) && e.Leaf? && GlobTrie.Valid(t')
    requires if e.kind == LeafGlob
             then Glob.Tokens(e.value).Some? && GlobTrie.Adds(t, t', Glob.Tokens(e.value).value, |ls|)
             else t' == t
    ensures GlobHolds(t', ls + [e])
  {
    forall ts, i: nat ensures GlobTrie.Registered(t', ts, i) <==> GlobLeaf(ls + [e], ts, i) {
      assert GlobLeaf(ls + [e], ts, i) <==>
        GlobLeaf(ls, ts, i) || (i == |ls| && e.kind == LeafGlob && Glob.Tokens(e.value) == Some(ts));
    }
  }

  lemma {:induction false} ExistsAdd(x: Option<nat>, ls: seq<Expr>, e: Expr)
    requires ExistsHolds(x, ls) && e.Leaf? && e !in ls && (e.kind == LeafExists ==> e.value == [])
    ensures ExistsHolds(if e.kind == LeafExists then Some(|ls|) else x, ls + [e])
  {
    forall i: nat
      ensures IsLeaf(ls + [e], i, LeafExists, []) <==>
              IsLeaf(ls, i, LeafExists, []) || (i == |ls| && e.kind == LeafExists)
      ensures IsLeaf(ls, i, LeafExists, []) ==> e.kind != LeafExists
    {
      assert i < |ls| ==> ls[i] in ls;
    }
  }

  lemma {:induction false} NumAdd(w: World, n: NumIndex.Index, n': NumIndex.Index, ls: seq<Expr>, e: Expr)
    requires NumHolds(w, n, ls) && e.Leaf? && NumIndex.Valid(n')
    requires if e.kind == LeafNumber then
               NumIndex.Entries(n') == NumIndex.Entries(n) + multiset{NumIndex.NumEntry(w.parseInterval(e.value), |ls|)}
             else n' == n
    ensures NumHolds(w, n', ls + [e])
  {
    forall d: NumIndex.NumEntry ensures d in NumIndex.Entries(n') <==> NumLeaf(w, ls + [e], d) {
      NumLeafAppend(w, ls, e, d);
    }
  }

  lemma {:induction false} NumLeafAppend(w: World, ls: seq<Expr>, e: Expr, d: NumIndex.NumEntry)
    requires e.Leaf?
    ensures NumLeaf(w, ls + [e], d) <==>
            NumLeaf(w, ls, d) || (e.kind == LeafNumber && d == NumIndex.NumEntry(w.parseInterval(e.value), |ls|))
  {
  }

  lemma {:induction false} CidrAdd(w: World, x: CidrIndex.Index, ls: seq<Expr>, e: Expr)
    requires w.Lawful() && CidrHolds(w, x, ls) && e.Leaf? && e !in ls && GoodLeaf(w, e.kind, e.value)
    requires forall i :: 0 <= i < |ls| ==> ls[i].Leaf? && GoodLeaf(w, ls[i].kind, ls[i].value)
    ensures var added := if e.kind == LeafCIDR then CidrIndex.Add(x, w.parsePrefix(e.value).value, |ls|) else x;
            CidrHolds(w, added, ls + [e])
  {
    if e.kind == LeafCIDR {
      CidrAddOne(w, x, ls, e);
    } else {
      forall p: Rules.IPPrefix, i: nat ensures CidrLeaf(w, ls + [e], p, i) <==> CidrLeaf(w, ls, p, i) {
      }
    }
  }

  lemma {:induction false} CidrAddOne(w: World, x: CidrIndex.Index, ls: seq<Expr>, e: Expr)
    requires w.Lawful() && CidrHolds(w, x, ls) && e.Leaf? && e.kind == LeafCIDR && e !in ls
    requires GoodLeaf(w, e.kind, e.value)
    requires forall i :: 0 <= i < |ls| ==> ls[i].Leaf? && GoodLeaf(w, ls[i].kind, ls[i].value)
    ensures CidrHolds(w, CidrIndex.Add(x, w.parsePrefix(e.value).value, |ls|), ls + [e])
  {
    var q := w.parsePrefix(e.value).value;
    var x' := CidrIndex.Add(x, q, |ls|);
    forall p: Rules.IPPrefix, i: nat ensures CidrIndex.Registered(x', p, i) <==> CidrLeaf(w, ls + [e], p, i) {
      assert CidrLeaf(w, ls + [e], p, i) <==> CidrLeaf(w, ls, p, i) || (i == |ls| && p == q);
      CidrIsNew(w, ls, e, i);
      assert CidrIndex.Registered(x, p, i) <==> CidrLeaf(w, ls, p, i);
    }
  }

  /** Leaves with different values stand for different prefixes. */
  lemma {:induction false} CidrIsNew(w: World, ls: seq<Expr>, e: Expr, i: nat)
    requires e.Leaf? && e.kind == LeafCIDR && e !in ls && GoodLeaf(w, e.kind, e.value) && GoodLeaves(w, ls)
    ensures !CidrLeaf(w, ls, w.parsePrefix(e.value).value, i)
  {
    assert i < |ls| ==> ls[i] in ls;
  }

  lemma {:induction false} KindsAdd(kinds: set<LeafKind>, ls: seq<Expr>, e: Expr)
    requires KindsHold(kinds, ls) && e.Leaf?
    ensures KindsHold(kinds + {e.kind}, ls + [e])
  {
  }

  ghost predicate GoodLeaves(w: World, ls: seq<Expr>) {
    forall i :: 0 <= i < |ls| ==> ls[i].Leaf? && GoodLeaf(w, ls[i].kind, ls[i].value)
  }

  /** add: registers the new leaf e under the next number. */
  method Add(w: World, x: Index, e: Expr, id: nat, ghost ls: seq<Expr>) returns (x': Index)
    requires w.Lawful() && Represents(w, x, ls) && GoodLeaves(w, ls) && id == |ls|
    requires e.Leaf? && e !in ls && GoodLeaf(w, e.kind, e.value)
    ensures Represents(w, x', ls + [e])
  {
    var glob, num := x.glob, x.num;
    if e.kind == LeafGlob {
      glob := GlobTrie.Insert(x.glob, e.value, id);
    } else if e.kind == LeafNumber {
      num := NumIndex.Add(x.num, w.parseInterval(e.value), id);
    }
    GlobAdd(x.glob, glob, ls, e);
    NumAdd(w, x.num, num, ls, e);
    x' := AddSimple(w, x, e, id, glob, num);
    AddSimpleRepresents(w, x, e, glob, num, ls);
  }

  /** The structures a leaf of another kind than wildcard or number goes to. */
  function AddSimple(w: World, x: Index, e: Expr, id: nat, glob: GlobTrie.Trie, num: NumIndex.Index): Index
    requires e.Leaf? && w.Lawful() && CidrIndex.Valid(x.cidr)
    requires e.kind == LeafCIDR ==> w.parsePrefix(e.value).Some?
  {
    var prefix, suffix := e.kind == LeafPrefix, e.kind == LeafSuffix;
    Index(
      if e.kind == LeafEquals then x.equals[e.value := id] else x.equals,
      if prefix then x.prefixes[e.value := id] else x.prefixes,
      if suffix then x.suffixes[e.value := id] else x.suffixes,
      if prefix then CidrIndex.AddLength(x.prefixLens, |e.value|) else x.prefixLens,
      if suffix then CidrIndex.AddLength(x.suffixLens, |e.value|) else x.suffixLens,
      glob,
      if e.kind == LeafExists then Some(id) else x.exists_,
      num,
      if e.kind == LeafCIDR then CidrIndex.Add(x.cidr, w.parsePrefix(e.value).value, id) else x.cidr,
      x.kinds + {e.kind})
  }

  lemma {:induction false} AddSimpleRepresents(w: World, x: Index, e: Expr, glob: GlobTrie.Trie, num: NumIndex.Index,
                                               ls: seq<Expr>)
    requires w.Lawful() && Represents(w, x, ls) && GoodLeaves(w, ls)
    requires e.Leaf? && e !in ls && GoodLeaf(w, e.kind, e.value)
    requires GlobHolds(glob, ls + [e]) && NumHolds(w, num, ls + [e])
    ensures Represents(w, AddSimple(w, x, e, |ls|, glob, num), ls + [e])
  {
    MapAdd(x.equals, LeafEquals, ls, e);
    MapAdd(x.prefixes, LeafPrefix, ls, e);
    MapAdd(x.suffixes, LeafSuffix, ls, e);
    LengthsAdd(x.prefixLens, x.prefixes, e.value, |ls|);
    LengthsAdd(x.suffixLens, x.suffixes, e.value, |ls|);
    ExistsAdd(x.exists_, ls, e);
    CidrAdd(w, x.cidr, ls, e);
    KindsAdd(x.kinds, ls, e);
  }

  // -------------------------------------------------------------- collect

  /** Leaf l of ls has this kind and matches v. */
  ghost predicate KindHit(w: World, ls: seq<Expr>, kind: LeafKind, v: Bytes, l: nat) {
    l < |ls| && ls[l].Leaf? && ls[l].kind == kind && LeafMatches(w, kind, ls[l].value, v)
  }

  method CollectEquals(w: World, x: Index, v: Bytes, before: seq<nat>, ghost ls: seq<Expr>) returns (hits: seq<nat>)
    requires MapHolds(x.equals, LeafEquals, ls)
    ensures forall l: nat :: l in hits <==> l in before || KindHit(w, ls, LeafEquals, v, l)
  {
    hits := before + if v in x.equals then [x.equals[v]] else [];
    forall l: nat ensures KindHit(w, ls, LeafEquals, v, l) <==> IsLeaf(ls, l, LeafEquals, v) {
    }
  }

  ghost predicate PrefixAt(m: map<Bytes, nat>, n: nat, v: Bytes, l: nat) {
    n <= |v| && v[..n] in m && m[v[..n]] == l
  }

  ghost predicate PrefixHit(m: map<Bytes, nat>, lens: seq<nat>, v: Bytes, l: nat) {
    exists n: nat :: n in lens && PrefixAt(m, n, v, l)
  }

  lemma {:induction false} PrefixAppend(m: map<Bytes, nat>, lens: seq<nat>, n: nat, v: Bytes)
    ensures forall l: nat :: PrefixHit(m, lens + [n], v, l) <==> PrefixHit(m, lens, v, l) || PrefixAt(m, n, v, l)
  {
    assert forall k: nat :: k in lens + [n] <==> k in lens || k == n;
  }

  /** Lengths beyond that of v find nothing. */
  lemma {:induction false} PrefixEnough(m: map<Bytes, nat>, lens: seq<nat>, i: nat, v: Bytes)
    requires i <= |lens| && CidrIndex.Ascending(lens) && (i < |lens| ==> lens[i] > |v|)
    ensures forall l: nat :: PrefixHit(m, lens[..i], v, l) <==> PrefixHit(m, lens, v, l)
  {
    assert forall k :: i <= k < |lens| ==> lens[k] > |v|;
    forall n: nat | n in lens && n <= |v| ensures n in lens[..i] {
      var k :| 0 <= k < |lens| && lens[k] == n;
      assert lens[..i][k] == n;
    }
    assert forall n: nat :: n in lens[..i] ==> n in lens;
  }

  lemma {:induction false} PrefixesMatch(w: World, m: map<Bytes, nat>, lens: seq<nat>, v: Bytes, ls: seq<Expr>, l: nat)
    requires MapHolds(m, LeafPrefix, ls) && LengthsHold(lens, m)
    ensures PrefixHit(m, lens, v, l) <==> KindHit(w, ls, LeafPrefix, v, l)
  {
    if PrefixHit(m, lens, v, l) {
      var n: nat :| n in lens && PrefixAt(m, n, v, l);
      assert IsLeaf(ls, l, LeafPrefix, v[..n]);
    }
    if KindHit(w, ls, LeafPrefix, v, l) {
      var value := ls[l].value;
      var n := |value|;
      assert IsLeaf(ls, l, LeafPrefix, value);
      assert v[..n] == value && PrefixAt(m, n, v, l);
    }
  }

  /** The lookups of the prefixes of v; longer lengths than v's need not be tried. */
  method CollectPrefixes(w: World, m: map<Bytes, nat>, lens: seq<nat>, v: Bytes, before: seq<nat>, ghost ls: seq<Expr>)
    returns (hits: seq<nat>)
    requires MapHolds(m, LeafPrefix, ls) && LengthsHold(lens, m)
    ensures forall l: nat :: l in hits <==> l in before || KindHit(w, ls, LeafPrefix, v, l)
  {
    hits := before;
    var i := 0;
    while i < |lens| && lens[i] <= |v|
      invariant i <= |lens|
      invariant forall l: nat :: l in hits <==> l in before || PrefixHit(m, lens[..i], v, l)
    {
      var n := lens[i];
      assert lens[..i + 1] == lens[..i] + [n];
      PrefixAppend(m, lens[..i], n, v);
      if v[..n] in m {
        hits := hits + [m[v[..n]]];
      }
      i := i + 1;
    }
    PrefixEnough(m, lens, i, v);
    forall l: nat ensures PrefixHit(m, lens, v, l) <==> KindHit(w, ls, LeafPrefix, v, l) {
      PrefixesMatch(w, m, lens, v, ls, l);
    }
  }

  ghost predicate SuffixAt(m: map<Bytes, nat>, n: nat, v: Bytes, l: nat) {
    n <= |v| && v[|v| - n..] in m && m[v[|v| - n..]] == l
  }

  ghost predicate SuffixHit(m: map<Bytes, nat>, lens: seq<nat>, v: Bytes, l: nat) {
    exists n: nat :: n in lens && SuffixAt(m, n, v, l)
  }

  lemma {:induction false} SuffixAppend(m: map<Bytes, nat>, lens: seq<nat>, n: nat, v: Bytes)
    ensures forall l: nat :: SuffixHit(m, lens + [n], v, l) <==> SuffixHit(m, lens, v, l) || SuffixAt(m, n, v, l)
  {
    assert forall k: nat :: k in lens + [n] <==> k in lens || k == n;
  }

  /** Lengths beyond that of v find nothing. */
  lemma {:induction false} SuffixEnough(m: map<Bytes, nat>, lens: seq<nat>, i: nat, v: Bytes)
    requires i <= |lens| && CidrIndex.Ascending(lens) && (i < |lens| ==> lens[i] > |v|)
    ensures forall l: nat :: SuffixHit(m, lens[..i], v, l) <==> SuffixHit(m, lens, v, l)
  {
    assert forall k :: i <= k < |lens| ==> lens[k] > |v|;
    forall n: nat | n in lens && n <= |v| ensures n in lens[..i] {
      var k :| 0 <= k < |lens| && lens[k] == n;
      assert lens[..i][k] == n;
    }
    assert forall n: nat :: n in lens[..i] ==> n in lens;
  }

  lemma {:induction false} SuffixesMatch(w: World, m: map<Bytes, nat>, lens: seq<nat>, v: Bytes, ls: seq<Expr>, l: nat)
    requires MapHolds(m, LeafSuffix, ls) && LengthsHold(lens, m)
    ensures SuffixHit(m, lens, v, l) <==> KindHit(w, ls, LeafSuffix, v, l)
  {
    if SuffixHit(m, lens, v, l) {
      var n: nat :| n in lens && SuffixAt(m, n, v, l);
      assert IsLeaf(ls, l, LeafSuffix, v[|v| - n..]);
    }
    if KindHit(w, ls, LeafSuffix, v, l) {
      var value := ls[l].value;
      var n := |value|;
      assert IsLeaf(ls, l, LeafSuffix, value);
      assert v[|v| - n..] == value && SuffixAt(m, n, v, l);
    }
  }

  /** The lookups of the suffixes of v; longer lengths than v's need not be tried. */
  method CollectSuffixes(w: World, m: map<Bytes, nat>, lens: seq<nat>, v: Bytes, before: seq<nat>, ghost ls: seq<Expr>)
    returns (hits: seq<nat>)
    requires MapHolds(m, LeafSuffix, ls) && LengthsHold(lens, m)
    ensures forall l: nat :: l in hits <==> l in before || KindHit(w, ls, LeafSuffix, v, l)
  {
    hits := before;
    var i := 0;
    while i < |lens| && lens[i] <= |v|
      invariant i <= |lens|
      invariant forall l: nat :: l in hits <==> l in before || SuffixHit(m, lens[..i], v, l)
    {
      var n := lens[i];
      assert lens[..i + 1] == lens[..i] + [n];
      SuffixAppend(m, lens[..i], n, v);
      if v[|v| - n..] in m {
        hits := hits + [m[v[|v| - n..]]];
      }
      i := i + 1;
    }
    SuffixEnough(m, lens, i, v);
    forall l: nat ensures SuffixHit(m, lens, v, l) <==> KindHit(w, ls, LeafSuffix, v, l) {
      SuffixesMatch(w, m, lens, v, ls, l);
    }
  }

  method CollectGlobs(w: World, x: Index, v: Bytes, before: seq<nat>, ghost ls: seq<Expr>) returns (hits: seq<nat>)
    requires GlobHolds(x.glob, ls)
    ensures forall l: nat :: l in hits <==> l in before || KindHit(w, ls, LeafGlob, v, l)
  {
    var found := GlobNfa.Match(x.glob, v);
    hits := before + found;
    forall l: nat ensures l in found <==> KindHit(w, ls, LeafGlob, v, l) {
      if KindHit(w, ls, LeafGlob, v, l) {
        assert GlobTrie.Registered(x.glob, Glob.Tokens(ls[l].value).value, l);
      }
    }
  }

  method CollectNumbers(w: World, x: Index, v: Bytes, before: seq<nat>, ghost ls: seq<Expr>) returns (hits: seq<nat>)
    requires NumHolds(w, x.num, ls)
    ensures forall l: nat :: l in hits <==> l in before || KindHit(w, ls, LeafNumber, v, l)
  {
    hits := before;
    var n := w.parseNumber(v);
    if n.Some? {
      hits := NumIndex.Collect(x.num, n.value, before);
      forall l: nat ensures KindHit(w, ls, LeafNumber, v, l) <==>
        exists e :: e in NumIndex.Entries(x.num) && e.leaf == l && e.iv.Contains(n.value)
      {
        if KindHit(w, ls, LeafNumber, v, l) {
          assert NumLeaf(w, ls, NumIndex.NumEntry(w.parseInterval(ls[l].value), l));
        }
      }
    }
  }

  method CollectCidrs(w: World, x: Index, v: Bytes, before: seq<nat>, ghost ls: seq<Expr>) returns (hits: seq<nat>)
    requires w.Lawful() && CidrHolds(w, x.cidr, ls)
    ensures forall l: nat :: l in hits <==> l in before || KindHit(w, ls, LeafCIDR, v, l)
  {
    hits := before;
    var a := w.parseIP(v);
    if a.Some? {
      hits := CidrIndex.Collect(x.cidr, a.value, before);
      forall l: nat ensures KindHit(w, ls, LeafCIDR, v, l) <==> CidrIndex.Matches(x.cidr, a.value, l) {
        CidrsMatch(w, x.cidr, v, a.value, ls, l);
      }
    }
  }

  lemma {:induction false} CidrsMatch(w: World, x: CidrIndex.Index, v: Bytes, a: seq<bool>, ls: seq<Expr>, l: nat)
    requires CidrHolds(w, x, ls) && w.parseIP(v) == Some(a)
    ensures KindHit(w, ls, LeafCIDR, v, l) <==> CidrIndex.Matches(x, a, l)
  {
    if KindHit(w, ls, LeafCIDR, v, l) {
      assert CidrLeaf(w, ls, w.parsePrefix(ls[l].value).value, l);
    }
    if CidrIndex.Matches(x, a, l) {
      var p: Rules.IPPrefix :| CidrIndex.Registered(x, p, l) && p.Contains(a);
      assert CidrLeaf(w, ls, p, l);
    }
  }

  /** Leaf l of ls matches v; the exists leaf is handled once per property. */
  ghost predicate ValueHit(w: World, ls: seq<Expr>, v: Bytes, l: nat) {
    l < |ls| && ls[l].Leaf? && ls[l].kind != LeafExists && LeafMatches(w, ls[l].kind, ls[l].value, v)
  }

  lemma {:induction false} NoSuchKind(w: World, x: Index, ls: seq<Expr>, kind: LeafKind, v: Bytes)
    requires KindsHold(x.kinds, ls) && kind !in x.kinds
    ensures forall l: nat :: !KindHit(w, ls, kind, v, l)
  {
  }

  /** collect: the leaves matching the folded value v, looking only at the kinds in use. */
  method Collect(w: World, x: Index, v: Bytes, before: seq<nat>, ghost ls: seq<Expr>) returns (hits: seq<nat>)
    requires w.Lawful() && Represents(w, x, ls)
    ensures forall l: nat :: l in hits <==> l in before || ValueHit(w, ls, v, l)
  {
    hits := CollectLookups(w, x, v, before, ls);
    if LeafGlob in x.kinds {
      hits := CollectGlobs(w, x, v, hits, ls);
    } else {
      NoSuchKind(w, x, ls, LeafGlob, v);
    }
    if LeafNumber in x.kinds {
      hits := CollectNumbers(w, x, v, hits, ls);
    } else {
      NoSuchKind(w, x, ls, LeafNumber, v);
    }
    if LeafCIDR in x.kinds {
      hits := CollectCidrs(w, x, v, hits, ls);
    } else {
      NoSuchKind(w, x, ls, LeafCIDR, v);
    }
  }

  method CollectLookups(w: World, x: Index, v: Bytes, before: seq<nat>, ghost ls: seq<Expr>) returns (hits: seq<nat>)
    requires Represents(w, x, ls)
    ensures forall l: nat :: l in hits <==>
      l in before || KindHit(w, ls, LeafEquals, v, l) || KindHit(w, ls, LeafPrefix, v, l) ||
      KindHit(w, ls, LeafSuffix, v, l)
  {
    hits := before;
    if LeafEquals in x.kinds {
      hits := CollectEquals(w, x, v, hits, ls);
    } else {
      NoSuchKind(w, x, ls, LeafEquals, v);
    }
    if LeafPrefix in x.kinds {
      hits := CollectPrefixes(w, x.prefixes, x.prefixLens, v, hits, ls);
    } else {
      NoSuchKind(w, x, ls, LeafPrefix, v);
    }
    if LeafSuffix in x.kinds {
      hits := CollectSuffixes(w, x.suffixes, x.suffixLens, v, hits, ls);
    } else {
      NoSuchKind(w, x, ls, LeafSuffix, v);
    }
  }
}
