/**
 * The token trie of the wildcard patterns of a group, simulated as an NFA
 * (globNode in index.go). Nodes are numbered; a number stands for a pointer.
 */
module GlobTrie {
  import opened ByteStrings
  import opened Sorting
  import opened Glob

  /** final and reach hold the patterns ending here, without and with a trailing star. */
  datatype GlobNode = GlobNode(kids: map<Byte, nat>, spin: Option<nat>, final: seq<nat>, reach: seq<nat>, spinner: bool)

  /** Node 0 is the root. */
  type Trie = seq<GlobNode>

  const NEW_NODE := GlobNode(map[], None, [], [], false)

  function Empty(): Trie {
    [NEW_NODE]
  }

  /** The node a token leads to. */
  function Step(t: Trie, n: nat, tok: Token): Option<nat>
    requires n < |t|
  {
    match tok
    case Star => t[n].spin
    case Lit(c) => if c in t[n].kids then Some(t[n].kids[c]) else None
  }

  ghost predicate Linked(t: Trie, n: nat, tok: Token, m: nat) {
    n < |t| && Step(t, n, tok) == Some(m)
  }

  /** A tree whose links lead to later nodes; spinners are what stars lead to. */
  ghost predicate Valid(t: Trie) {
    && t != [] && !t[0].spinner
    && (forall n: nat, tok, m: nat :: Linked(t, n, tok, m) ==> n < m < |t| && (t[m].spinner <==> tok.Star?))
    && (forall n: nat, tok, n': nat, tok', m: nat :: Linked(t, n, tok, m) && Linked(t, n', tok', m) ==>
          n == n' && tok == tok')
    && (forall n :: 0 <= n < |t| && t[n].spinner ==> t[n].spin.None? && t[n].final == [] && t[n].reach == [])
  }

  /** The node the tokens w lead to from the root. */
  ghost function Walk(t: Trie, w: seq<Token>): (n: Option<nat>)
    requires Valid(t)
    ensures n.Some? ==> n.value < |t|
    decreases |w|
  {
    if w == [] then Some(0)
    else
      match Walk(t, w[..|w| - 1])
      case None => None
      case Some(p) =>
        var tok := w[|w| - 1];
        assert Step(t, p, tok).Some? ==> Linked(t, p, tok, Step(t, p, tok).value);
        Step(t, p, tok)
  }

  lemma {:induction false} WalkStep(t: Trie, w: seq<Token>, tok: Token)
    requires Valid(t)
    ensures Walk(t, w + [tok]) == match Walk(t, w) case None => None case Some(p) => Step(t, p, tok)
  {
    assert (w + [tok])[..|w|] == w;
  }

  /** The last link of the way to a node other than the root. */
  lemma {:induction false} LastLink(t: Trie, w: seq<Token>) returns (p: nat, init: seq<Token>, tok: Token)
    requires Valid(t) && w != [] && Walk(t, w).Some?
    ensures w == init + [tok] && Walk(t, init) == Some(p) && Linked(t, p, tok, Walk(t, w).value)
  {
    init, tok := w[..|w| - 1], w[|w| - 1];
    WalkStep(t, init, tok);
    p := Walk(t, init).value;
  }

  /** Different words lead to different nodes. */
  lemma {:induction false} WalkInjective(t: Trie, w: seq<Token>, w': seq<Token>)
    requires Valid(t) && Walk(t, w).Some? && Walk(t, w) == Walk(t, w')
    ensures w == w'
    decreases |w|
  {
    if w == [] || w' == [] {
      if w != [] {
        var p, init, tok := LastLink(t, w);
      }
      if w' != [] {
        var p, init, tok := LastLink(t, w');
      }
    } else {
      var p, init, tok := LastLink(t, w);
      var p', init', tok' := LastLink(t, w');
      WalkInjective(t, init, init');
    }
  }

  /** The pattern with the tokens ts is registered for leaf l. */
  ghost predicate Registered(t: Trie, ts: seq<Token>, l: nat)
    requires Valid(t)
  {
    || (Walk(t, ts).Some? && l in t[Walk(t, ts).value].final)
    || (ts != [] && ts[|ts| - 1].Star? &&
        var init := ts[..|ts| - 1];
        Walk(t, init).Some? && l in t[Walk(t, init).value].reach)
  }

  // -------------------------------------------------------------- insert

  /** A new node that tok leads to from n. */
  function Grow(t: Trie, n: nat, tok: Token): Trie
    requires n < |t|
  {
    var m := |t|;
    match tok
    case Star => t[n := t[n].(spin := Some(m))] + [NEW_NODE.(spinner := true)]
    case Lit(c) => t[n := t[n].(kids := t[n].kids[c := m])] + [NEW_NODE]
  }

  lemma {:induction false} GrowLinks(t: Trie, n: nat, tok: Token)
    requires n < |t| && Step(t, n, tok).None?
    ensures forall n': nat, tok', m: nat :: Linked(Grow(t, n, tok), n', tok', m) <==>
                                  Linked(t, n', tok', m) || (n' == n && tok' == tok && m == |t|)
  {
    var t' := Grow(t, n, tok);
    forall n': nat, tok', m: nat
      ensures Linked(t', n', tok', m) <==> Linked(t, n', tok', m) || (n' == n && tok' == tok && m == |t|)
    {
      assert n' < |t| && n' != n ==> t'[n'] == t[n'];
    }
  }

  lemma {:induction false} GrowValid(t: Trie, n: nat, tok: Token)
    requires Valid(t) && n < |t| && Step(t, n, tok).None? && (tok.Star? ==> !t[n].spinner)
    ensures Valid(Grow(t, n, tok))
  {
    var t' := Grow(t, n, tok);
    GrowLinks(t, n, tok);
    assert forall i :: 0 <= i < |t| ==>
             t'[i].spinner == t[i].spinner && t'[i].final == t[i].final && t'[i].reach == t[i].reach;
  }

  /** No words but the new one lead anywhere they did not lead before. */
  lemma {:induction false} GrowWalk(t: Trie, n: nat, tok: Token, word: seq<Token>, w: seq<Token>)
    requires Valid(t) && n < |t| && Step(t, n, tok).None? && Valid(Grow(t, n, tok))
    requires Walk(t, word) == Some(n)
    ensures Walk(Grow(t, n, tok), w) == if w == word + [tok] then Some(|t|) else Walk(t, w)
    decreases |w|
  {
    var t' := Grow(t, n, tok);
    if w != [] {
      var init, last := w[..|w| - 1], w[|w| - 1];
      assert w == init + [last];
      GrowWalk(t, n, tok, word, init);
      WalkStep(t, init, last);
      WalkStep(t', init, last);
      GrowLast(t, n, tok, word, init, last);
    }
  }

  lemma {:induction false} GrowLast(t: Trie, n: nat, tok: Token, word: seq<Token>, init: seq<Token>, last: Token)
    requires Valid(t) && n < |t| && Step(t, n, tok).None? && Valid(Grow(t, n, tok))
    requires Walk(t, word) == Some(n)
    requires Walk(Grow(t, n, tok), init) == if init == word + [tok] then Some(|t|) else Walk(t, init)
    requires Walk(t, init + [last]) == match Walk(t, init) case None => None case Some(p) => Step(t, p, last)
    ensures (match Walk(Grow(t, n, tok), init) case None => None case Some(p) => Step(Grow(t, n, tok), p, last)) ==
            if init + [last] == word + [tok] then Some(|t|) else Walk(t, init + [last])
  {
    SnocEqual(init, last, word, tok);
    if init == word + [tok] {
      WalkStep(t, word, tok);
      assert |init + [last]| == |word + [tok]| + 1;
    } else if Walk(t, init).Some? {
      GrowStep(t, n, tok, word, init, last);
    }
  }

  lemma {:induction false} SnocEqual(a: seq<Token>, x: Token, b: seq<Token>, y: Token)
    ensures a + [x] == b + [y] <==> a == b && x == y
  {
    assert (a + [x])[..|a|] == a && (a + [x])[|a|] == x;
    assert (b + [y])[..|b|] == b && (b + [y])[|b|] == y;
    assert a + [x] == b + [y] ==> |a| == |b|;
  }

  lemma {:induction false} GrowStep(t: Trie, n: nat, tok: Token, word: seq<Token>, init: seq<Token>, last: Token)
    requires Valid(t) && n < |t| && Step(t, n, tok).None?
    requires Walk(t, word) == Some(n) && Walk(t, init).Some?
    ensures Step(Grow(t, n, tok), Walk(t, init).value, last) ==
            if init + [last] == word + [tok] then Some(|t|) else Step(t, Walk(t, init).value, last)
  {
    SnocEqual(init, last, word, tok);
    if Walk(t, init).value == n {
      WalkInjective(t, init, word);
    }
  }

  lemma {:induction false} GrowRegistered(t: Trie, n: nat, tok: Token, word: seq<Token>, ts: seq<Token>, l: nat)
    requires Valid(t) && n < |t| && Step(t, n, tok).None? && Valid(Grow(t, n, tok))
    requires Walk(t, word) == Some(n)
    ensures Registered(Grow(t, n, tok), ts, l) <==> Registered(t, ts, l)
  {
    var t' := Grow(t, n, tok);
    assert forall i :: 0 <= i < |t| ==> t'[i].final == t[i].final && t'[i].reach == t[i].reach;
    WalkStep(t, word, tok);
    GrowWalk(t, n, tok, word, ts);
    if ts != [] {
      GrowWalk(t, n, tok, word, ts[..|ts| - 1]);
    }
  }

  /** The way from the root along word ends in n. */
  ghost predicate At(t: Trie, word: seq<Token>, n: nat) {
    Valid(t) && n < |t| && Walk(t, word) == Some(n)
  }

  /** The two tries register the same patterns. */
  ghost predicate SameLeaves(t: Trie, t': Trie)
    requires Valid(t) && Valid(t')
  {
    forall ts, l :: Registered(t', ts, l) <==> Registered(t, ts, l)
  }

  /** Goes from n along tok, adding a node if necessary. */
  method Follow(t: Trie, n: nat, tok: Token, ghost word: seq<Token>) returns (t': Trie, m: nat)
    requires At(t, word, n) && (tok.Star? ==> !t[n].spinner)
    ensures At(t', word + [tok], m) && SameLeaves(t, t')
    ensures t'[m].spinner <==> tok.Star?
  {
    WalkStep(t, word, tok);
    var next := Step(t, n, tok);
    if next.Some? {
      assert Linked(t, n, tok, next.value);
      return t, next.value;
    }
    GrowValid(t, n, tok);
    GrowWalk(t, n, tok, word, word + [tok]);
    t', m := Grow(t, n, tok), |t|;
    forall ts, l ensures Registered(t', ts, l) <==> Registered(t, ts, l) {
      GrowRegistered(t, n, tok, word, ts, l);
    }
  }

  /** The trie registers what it did and the pattern ts for l. */
  ghost predicate Adds(t: Trie, t': Trie, ts: seq<Token>, l: nat)
    requires Valid(t) && Valid(t')
  {
    forall ts', l' :: Registered(t', ts', l') <==> Registered(t, ts', l') || (ts' == ts && l' == l)
  }

  function Accept(t: Trie, n: nat, l: nat, trailing: bool): Trie
    requires n < |t|
  {
    if trailing then t[n := t[n].(reach := t[n].reach + [l])]
    else t[n := t[n].(final := t[n].final + [l])]
  }

  lemma {:induction false} AcceptWalk(t: Trie, n: nat, l: nat, trailing: bool, w: seq<Token>)
    requires Valid(t) && n < |t| && !t[n].spinner
    ensures Valid(Accept(t, n, l, trailing)) && Walk(Accept(t, n, l, trailing), w) == Walk(t, w)
    decreases |w|
  {
    var t' := Accept(t, n, l, trailing);
    assert forall n': nat, tok, m: nat :: Linked(t', n', tok, m) <==> Linked(t, n', tok, m);
    if w != [] {
      AcceptWalk(t, n, l, trailing, w[..|w| - 1]);
    }
  }

  lemma {:induction false} AcceptAdds(t: Trie, n: nat, l: nat, trailing: bool, word: seq<Token>)
    requires At(t, word, n) && !t[n].spinner
    requires Valid(Accept(t, n, l, trailing))
    ensures Adds(t, Accept(t, n, l, trailing), if trailing then word + [Star] else word, l)
  {
    var t' := Accept(t, n, l, trailing);
    var added := if trailing then word + [Star] else word;
    forall ts, l' ensures Registered(t', ts, l') <==> Registered(t, ts, l') || (ts == added && l' == l) {
      AcceptWalk(t, n, l, trailing, ts);
      AcceptHere(t, n, l, trailing, word, ts, l');
      if ts != [] {
        AcceptWalk(t, n, l, trailing, ts[..|ts| - 1]);
        AcceptHere(t, n, l, trailing, word, ts[..|ts| - 1], l');
        assert ts == ts[..|ts| - 1] + [ts[|ts| - 1]];
      }
      assert (word + [Star])[..|word|] == word;
    }
  }

  lemma {:induction false} AcceptHere(t: Trie, n: nat, l: nat, trailing: bool, word: seq<Token>, w: seq<Token>, l': nat)
    requires At(t, word, n)
    ensures Walk(t, w).Some? ==>
      var node, node' := t[Walk(t, w).value], Accept(t, n, l, trailing)[Walk(t, w).value];
      && (l' in node'.final <==> l' in node.final || (!trailing && w == word && l' == l))
      && (l' in node'.reach <==> l' in node.reach || (trailing && w == word && l' == l))
  {
    if Walk(t, w) == Some(n) {
      WalkInjective(t, w, word);
    }
  }

  /** A wildcard pattern without two stars in a row. */
  ghost predicate NoDoubleStar(ts: seq<Token>) {
    forall i :: 0 < i < |ts| ==> !(ts[i - 1].Star? && ts[i].Star?)
  }

  /** The token of pattern at i, where the next one begins, and the tokens from there on. */
  lemma {:induction false} PatternStep(pattern: Bytes, i: nat) returns (tok: Token, next: nat, rest: seq<Token>)
    requires i < |pattern| && Tokens(pattern[i..]).Some?
    ensures i < next <= |pattern| && Tokens(pattern[next..]) == Some(rest)
    ensures Tokens(pattern[i..]).value == [tok] + rest
    ensures next == if pattern[i] == BACKSLASH then i + 2 else i + 1
    ensures tok == if pattern[i] == STAR then Star else Lit(pattern[next - 1])
  {
    var left := pattern[i..];
    var len := HeadLength(left);
    next := i + len;
    assert left[len..] == pattern[next..];
    rest := Tokens(pattern[next..]).value;
    tok := if pattern[i] == STAR then Star else Lit(pattern[next - 1]);
  }

  /** The token that the character or escape at i stands for. */
  method ReadToken(pattern: Bytes, i: nat) returns (tok: Token, next: nat, ghost rest: seq<Token>)
    requires i < |pattern| && Tokens(pattern[i..]).Some?
    ensures i < next <= |pattern| && Tokens(pattern[next..]) == Some(rest)
    ensures Tokens(pattern[i..]).value == [tok] + rest
    ensures tok.Star? <==> pattern[i] == STAR
    ensures tok.Star? ==> next == i + 1
  {
    ghost var token;
    ghost var end;
    token, end, rest := PatternStep(pattern, i);
    var c := pattern[i];
    if c == STAR {
      return Star, i + 1, rest;
    }
    next := i + 1;
    if c == BACKSLASH {
      c := pattern[next];
      next := next + 1;
    }
    tok := Lit(c);
  }

  /** insert: adds the valid pattern for leaf l. */
  method Insert(t: Trie, pattern: Bytes, l: nat) returns (t': Trie)
    requires Valid(t) && Tokens(pattern).Some? && NoDoubleStar(Tokens(pattern).value)
    ensures Valid(t') && Adds(t, t', Tokens(pattern).value, l)
  {
    t' := t;
    var n: nat, i, trailing := 0, 0, false;
    ghost var all := Tokens(pattern).value;
    ghost var word: seq<Token>, left := [], all;
    assert pattern[0..] == pattern && [] + all == all;
    while i < |pattern|
      invariant i <= |pattern|
      invariant At(t', word, n) && SameLeaves(t, t')
      invariant t'[n].spinner <==> EndsInStar(word)
      invariant Tokens(pattern[i..]) == Some(left)
      invariant all == word + (if trailing then [Star] else []) + left
      invariant trailing || EndsInStar(word) ==> trailing == (i == |pattern|)
    {
      var tok, next;
      tok, next, left := ReadToken(pattern, i);
      if tok == Star && i == |pattern| - 1 {
        trailing := true;
        i := next;
        continue;
      }
      NextToken(all, word, tok, left);
      t', n := Follow(t', n, tok, word);
      word := word + [tok];
      i := next;
    }
    LastToken(all, word, trailing, left);
    t' := Finish(t, t', n, l, trailing, word);
  }

  method Finish(ghost t: Trie, grown: Trie, n: nat, l: nat, trailing: bool, ghost word: seq<Token>) returns (t': Trie)
    requires Valid(t) && At(grown, word, n) && SameLeaves(t, grown) && !grown[n].spinner
    ensures Valid(t') && Adds(t, t', if trailing then word + [Star] else word, l)
  {
    AcceptWalk(grown, n, l, trailing, []);
    AcceptAdds(grown, n, l, trailing, word);
    t' := Accept(grown, n, l, trailing);
  }

  predicate EndsInStar(word: seq<Token>) {
    word != [] && word[|word| - 1].Star?
  }

  lemma {:induction false} NextToken(all: seq<Token>, word: seq<Token>, tok: Token, rest: seq<Token>)
    requires NoDoubleStar(all) && all == word + [] + ([tok] + rest)
    ensures all == (word + [tok]) + [] + rest
    ensures tok.Star? ==> !EndsInStar(word)
  {
    assert all[|word|] == tok;
    assert word != [] ==> all[|word| - 1] == word[|word| - 1];
  }

  lemma {:induction false} LastToken(all: seq<Token>, word: seq<Token>, trailing: bool, left: seq<Token>)
    requires NoDoubleStar(all) && all == word + (if trailing then [Star] else []) + left
    requires left == [] && (EndsInStar(word) ==> trailing)
    ensures all == (if trailing then word + [Star] else word) && !EndsInStar(word)
  {
    assert all == if trailing then word + [Star] else word;
    if trailing && word != [] {
      assert all[|word|] == Star && all[|word| - 1] == word[|word| - 1];
    }
  }
}
