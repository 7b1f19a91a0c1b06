/** Simulating the token trie on a value: match, enter and addSpinner of index.go. */
module GlobNfa {
  import opened ByteStrings
  import opened Sorting
  import opened Glob
  import opened GlobTrie

  /** The way from the root to n accepts u. */
  ghost predicate Alive(t: Trie, n: nat, u: Bytes)
    requires Valid(t)
  {
    exists w :: Walk(t, w) == Some(n) && Accepts(w, u)
  }

  // ------------------------------------------------ accepting one more byte

  lemma {:induction false} AcceptsLit(w: seq<Token>, c: Byte, u: Bytes, d: Byte)
    ensures Accepts(w + [Lit(c)], u + [d]) <==> c == d && Accepts(w, u)
    ensures !Accepts(w + [Lit(c)], [])
  {
    assert (w + [Lit(c)])[..|w|] == w && (u + [d])[..|u|] == u;
  }

  lemma {:induction false} AcceptsStarEmpty(w: seq<Token>)
    ensures Accepts(w + [Star], []) <==> Accepts(w, [])
  {
    var e: Bytes := [];
    assert (w + [Star])[..|w|] == w && e[..0] == e;
    assert Accepts(w + [Star], e) <==> exists k :: 0 <= k <= |e| && Accepts(w, e[..k]);
  }

  lemma {:induction false} AcceptsStar(w: seq<Token>, u: Bytes, d: Byte)
    ensures Accepts(w + [Star], u + [d]) <==> Accepts(w + [Star], u) || Accepts(w, u + [d])
  {
    var v, n := u + [d], |u| + 1;
    assert (w + [Star])[..|w|] == w && v[..n] == v;
    assert Accepts(w + [Star], v) <==> exists k :: 0 <= k <= |v| && Accepts(w, v[..k]);
    assert Accepts(w + [Star], u) <==> exists k :: 0 <= k <= |u| && Accepts(w, u[..k]);
    assert forall k :: 0 <= k <= |u| ==> v[..k] == u[..k];
  }

  /** A trailing star accepts v if the pattern before it accepts a prefix of v. */
  lemma {:induction false} AcceptsReach(w: seq<Token>, v: Bytes)
    ensures Accepts(w + [Star], v) <==> exists k :: 0 <= k <= |v| && Accepts(w, v[..k])
  {
    assert (w + [Star])[..|w|] == w;
  }

  // ------------------------------------------------------ one step of the NFA

  /** Whether n is a spinner of cur, or a kid of cur reached by c. */
  ghost predicate Moves(t: Trie, cur: seq<nat>, c: Byte, n: nat) {
    (n < |t| && t[n].spinner && n in cur) || exists s: nat :: s in cur && Linked(t, s, Lit(c), n)
  }

  /** Whether n is entered in this step: moved to, or the target of a star of a kid. */
  ghost predicate Next(t: Trie, cur: seq<nat>, c: Byte, n: nat) {
    Moves(t, cur, c, n) || exists s: nat, k: nat :: s in cur && Linked(t, s, Lit(c), k) && Linked(t, k, Star, n)
  }

  ghost predicate IsAlive(t: Trie, cur: seq<nat>, u: Bytes)
    requires Valid(t)
  {
    forall n: nat :: n in cur <==> Alive(t, n, u)
  }

  /** A node other than the root is alive because of the node before it. */
  lemma {:induction false} AliveStep(t: Trie, p: nat, tok: Token, n: nat, u: Bytes, d: Byte)
    requires Valid(t) && Linked(t, p, tok, n)
    ensures Alive(t, n, u + [d]) <==>
            if tok.Star? then Alive(t, n, u) || Alive(t, p, u + [d]) else tok.c == d && Alive(t, p, u)
  {
    if exists w :: Walk(t, w) == Some(p) {
      var w :| Walk(t, w) == Some(p);
      WalkStep(t, w, tok);
      OneWord(t, p, w);
      OneWord(t, n, w + [tok]);
      match tok
      case Star => AcceptsStar(w, u, d);
      case Lit(c) => AcceptsLit(w, c, u, d);
    } else {
      NoWord(t, p, tok, n);
    }
  }

  lemma {:induction false} OneWord(t: Trie, n: nat, w: seq<Token>)
    requires Valid(t) && Walk(t, w) == Some(n)
    ensures forall u :: Alive(t, n, u) <==> Accepts(w, u)
  {
    forall w' | Walk(t, w') == Some(n) ensures w' == w {
      WalkInjective(t, w, w');
    }
  }

  lemma {:induction false} NoWord(t: Trie, p: nat, tok: Token, n: nat)
    requires Valid(t) && Linked(t, p, tok, n) && forall w :: Walk(t, w) != Some(p)
    ensures forall w :: Walk(t, w) != Some(n)
  {
    forall w ensures Walk(t, w) != Some(n) {
      if Walk(t, w) == Some(n) && w != [] {
        var p', init, tok' := LastLink(t, w);
      }
    }
  }

  /** What is alive after one more byte are the nodes entered in this step. */
  lemma {:induction false} NextAlive(t: Trie, cur: seq<nat>, u: Bytes, d: Byte, n: nat)
    requires Valid(t) && IsAlive(t, cur, u)
    ensures Next(t, cur, d, n) <==> Alive(t, n, u + [d])
  {
    if Alive(t, n, u + [d]) {
      var w :| Walk(t, w) == Some(n) && Accepts(w, u + [d]);
      assert w != [];
      var p, init, tok := LastLink(t, w);
      AliveStep(t, p, tok, n, u, d);
      if tok.Star? && !Alive(t, n, u) {
        AliveParent(t, cur, p, u, d, n);
      }
    }
    if Next(t, cur, d, n) {
      NextIsAlive(t, cur, u, d, n);
    }
  }

  /** A spinner whose owner is alive is entered together with it. */
  lemma {:induction false} AliveParent(t: Trie, cur: seq<nat>, p: nat, u: Bytes, d: Byte, n: nat)
    requires Valid(t) && IsAlive(t, cur, u) && Linked(t, p, Star, n) && Alive(t, p, u + [d])
    ensures Next(t, cur, d, n)
  {
    var w :| Walk(t, w) == Some(p) && Accepts(w, u + [d]);
    assert w != [];
    var q, init, tok := LastLink(t, w);
    AliveStep(t, q, tok, p, u, d);
    assert tok == Lit(d) && q in cur;
  }

  lemma {:induction false} NextIsAlive(t: Trie, cur: seq<nat>, u: Bytes, d: Byte, n: nat)
    requires Valid(t) && IsAlive(t, cur, u) && Next(t, cur, d, n)
    ensures Alive(t, n, u + [d])
  {
    if n < |t| && t[n].spinner && n in cur {
      var w :| Walk(t, w) == Some(n) && Accepts(w, u);
      assert w != [];
      var p, init, tok := LastLink(t, w);
      AliveStep(t, p, tok, n, u, d);
    } else if Moves(t, cur, d, n) {
      var s: nat :| s in cur && Linked(t, s, Lit(d), n);
      AliveStep(t, s, Lit(d), n, u, d);
    } else {
      var s: nat, k: nat :| s in cur && Linked(t, s, Lit(d), k) && Linked(t, k, Star, n);
      AliveStep(t, s, Lit(d), k, u, d);
      AliveStep(t, k, Star, n, u, d);
    }
  }

  // ----------------------------------------------------------- the buffers

  /** addSpinner: adds s to set unless it is already there. */
  method AddSpinner(nodes: seq<nat>, s: nat) returns (r: seq<nat>)
    requires Distinct(nodes)
    ensures Distinct(r) && forall n :: n in r <==> n in nodes || n == s
  {
    if s in nodes {
      return nodes;
    }
    return nodes + [s];
  }

  /** enter: adds n, which must not be there yet, and the spinner its star reaches. */
  method Enter(t: Trie, n: nat, nodes: seq<nat>, hits: seq<nat>) returns (r: seq<nat>, hits': seq<nat>)
    requires n < |t| && Distinct(nodes) && n !in nodes
    ensures Distinct(r) && forall m: nat :: m in r <==> m in nodes || m == n || Linked(t, n, Star, m)
    ensures hits' == hits + t[n].reach
  {
    r := nodes + [n];
    hits' := hits + t[n].reach;
    if t[n].spin.Some? {
      r := AddSpinner(r, t[n].spin.value);
      assert Linked(t, n, Star, t[n].spin.value);
    }
  }

  /** The leaves with a trailing star at the kids of cur reached by c. */
  ghost predicate Reached(t: Trie, cur: seq<nat>, c: Byte, l: nat) {
    exists s: nat, k: nat :: s in cur && Linked(t, s, Lit(c), k) && k < |t| && l in t[k].reach
  }

  lemma {:induction false} NextAppend(t: Trie, cur: seq<nat>, s: nat, c: Byte, n: nat, l: nat)
    ensures Next(t, cur + [s], c, n) <==>
            || Next(t, cur, c, n)
            || (s < |t| && t[s].spinner && n == s)
            || (exists k: nat :: Linked(t, s, Lit(c), k) && (n == k || Linked(t, k, Star, n)))
    ensures Reached(t, cur + [s], c, l) <==>
            Reached(t, cur, c, l) || exists k: nat :: Linked(t, s, Lit(c), k) && k < |t| && l in t[k].reach
  {
    assert forall m: nat :: m in cur + [s] <==> m in cur || m == s;
  }

  /** A kid of a node that is not in cur has not been entered yet. */
  lemma {:induction false} KidIsNew(t: Trie, cur: seq<nat>, s: nat, c: Byte, k: nat)
    requires Valid(t) && s !in cur && Linked(t, s, Lit(c), k)
    ensures !Next(t, cur, c, k) && k != s && !t[k].spinner
  {
  }

  ghost predicate EnteredBy(t: Trie, cur: seq<nat>, c: Byte, next: seq<nat>) {
    Distinct(next) && forall n: nat :: n in next <==> Next(t, cur, c, n)
  }

  ghost predicate HitBy(t: Trie, cur: seq<nat>, c: Byte, before: seq<nat>, hits: seq<nat>) {
    forall l: nat :: l in hits <==> l in before || Reached(t, cur, c, l)
  }

  /** The loop over the current nodes for one byte. No node is ever added twice. */
  method Advance(t: Trie, cur: seq<nat>, c: Byte, before: seq<nat>) returns (next: seq<nat>, hits: seq<nat>)
    requires Valid(t) && Distinct(cur) && forall n: nat :: n in cur ==> n < |t|
    ensures EnteredBy(t, cur, c, next) && HitBy(t, cur, c, before, hits)
  {
    next, hits := [], before;
    for i := 0 to |cur|
      invariant EnteredBy(t, cur[..i], c, next) && HitBy(t, cur[..i], c, before, hits)
    {
      assert cur[..i + 1] == cur[..i] + [cur[i]] && cur[i] in cur;
      next, hits := AdvanceOne(t, cur[..i], cur[i], c, next, before, hits);
    }
    assert cur[..|cur|] == cur;
  }

  method AdvanceOne(t: Trie, ghost done: seq<nat>, s: nat, c: Byte, next: seq<nat>, ghost before: seq<nat>,
                    hits: seq<nat>)
    returns (next': seq<nat>, hits': seq<nat>)
    requires Valid(t) && s < |t| && s !in done
    requires EnteredBy(t, done, c, next) && HitBy(t, done, c, before, hits)
    ensures EnteredBy(t, done + [s], c, next') && HitBy(t, done + [s], c, before, hits')
  {
    next', hits' := next, hits;
    if t[s].spinner {
      next' := AddSpinner(next', s);
    }
    if c in t[s].kids {
      var k := t[s].kids[c];
      assert Linked(t, s, Lit(c), k);
      KidIsNew(t, done, s, c, k);
      next', hits' := Enter(t, k, next', hits');
    }
    forall n: nat ensures n in next' <==> Next(t, done + [s], c, n) {
      NextAppend(t, done, s, c, n, 0);
    }
    forall l: nat ensures l in hits' <==> l in before || Reached(t, done + [s], c, l) {
      NextAppend(t, done, s, c, 0, l);
    }
  }

  // ----------------------------------------------------------------- match

  /** A pattern with a trailing star is decided once v[..i] was read. */
  ghost predicate ReachHit(t: Trie, v: Bytes, i: nat, l: nat)
    requires Valid(t) && i <= |v|
  {
    exists j: nat, n: nat :: j <= i && n < |t| && l in t[n].reach && Alive(t, n, v[..j])
  }

  lemma {:induction false} ReachStep(t: Trie, v: Bytes, i: nat, cur: seq<nat>, l: nat)
    requires Valid(t) && i < |v| && IsAlive(t, cur, v[..i])
    ensures ReachHit(t, v, i + 1, l) <==> ReachHit(t, v, i, l) || Reached(t, cur, v[i], l)
  {
    assert v[..i + 1] == v[..i] + [v[i]];
    if Reached(t, cur, v[i], l) {
      var s: nat, k: nat :| s in cur && Linked(t, s, Lit(v[i]), k) && k < |t| && l in t[k].reach;
      NextAlive(t, cur, v[..i], v[i], k);
      assert Alive(t, k, v[..i + 1]);
    }
    if ReachHit(t, v, i + 1, l) && !ReachHit(t, v, i, l) {
      var j: nat, n: nat :| j <= i + 1 && n < |t| && l in t[n].reach && Alive(t, n, v[..j]);
      assert j == i + 1;
      NextAlive(t, cur, v[..i], v[i], n);
      assert !t[n].spinner;
    }
  }

  /** Nothing is alive any more once no node is left. */
  lemma {:induction false} DeadStaysDead(t: Trie, v: Bytes, i: nat, j: nat)
    requires Valid(t) && i <= j <= |v| && IsAlive(t, [], v[..i])
    ensures IsAlive(t, [], v[..j])
    decreases j - i
  {
    if i < j {
      assert v[..i + 1] == v[..i] + [v[i]];
      var u := v[..i + 1];
      forall n: nat ensures !Alive(t, n, u) {
        NextAlive(t, [], v[..i], v[i], n);
      }
      DeadStaysDead(t, v, i + 1, j);
    }
  }

  /** What is alive and hit before the first byte. */
  method Start(t: Trie) returns (cur: seq<nat>, hits: seq<nat>)
    requires Valid(t)
    ensures Distinct(cur) && IsAlive(t, cur, [])
    ensures hits == t[0].reach
  {
    var none: Bytes := [];
    cur, hits := Enter(t, 0, [], []);
    forall n: nat ensures n in cur <==> Alive(t, n, none) {
      StartAlive(t, n);
    }
  }

  lemma {:induction false} StartAlive(t: Trie, n: nat)
    requires Valid(t)
    ensures Alive(t, n, []) <==> n == 0 || Linked(t, 0, Star, n)
  {
    assert Walk(t, []) == Some(0);
    OneWord(t, 0, []);
    if Alive(t, n, []) && n != 0 {
      var w :| Walk(t, w) == Some(n) && Accepts(w, []);
      var p, init, tok := LastLink(t, w);
      AliveEmpty(t, init, tok, p);
    }
    if Linked(t, 0, Star, n) {
      WalkStep(t, [], Star);
      AcceptsStarEmpty([]);
    }
  }

  /** No two stars follow each other, so only the first token can be skipped. */
  lemma {:induction false} AliveEmpty(t: Trie, init: seq<Token>, tok: Token, p: nat)
    requires Valid(t) && Walk(t, init) == Some(p) && Step(t, p, tok).Some? && Accepts(init + [tok], [])
    ensures tok == Star && p == 0
  {
    match tok
    case Lit(c) => AcceptsLit(init, c, [], c);
    case Star =>
      AcceptsStarEmpty(init);
      assert Linked(t, p, Star, Step(t, p, tok).value);
      assert !t[p].spinner;
      if init != [] {
        var q, init', tok' := LastLink(t, init);
        AcceptsLit(init', tok'.c, [], tok'.c);
      }
  }

  ghost predicate Running(t: Trie, v: Bytes, i: nat, cur: seq<nat>, hits: seq<nat>)
    requires Valid(t) && i <= |v|
  {
    && Distinct(cur) && IsAlive(t, cur, v[..i])
    && forall l: nat :: l in hits <==> ReachHit(t, v, i, l)
  }

  lemma {:induction false} AliveNodes(t: Trie, n: nat, u: Bytes)
    requires Valid(t) && Alive(t, n, u)
    ensures n < |t|
  {
  }

  /** match: simulates the trie on v and returns the leaves of all matching patterns. */
  method Match(t: Trie, v: Bytes) returns (hits: seq<nat>)
    requires Valid(t)
    ensures forall l: nat :: l in hits <==> exists ts :: Registered(t, ts, l) && Accepts(ts, v)
  {
    var cur;
    cur, hits := Start(t);
    StartRunning(t, v, cur, hits);
    var i := 0;
    while i < |v| && cur != []
      invariant i <= |v| && Running(t, v, i, cur, hits)
    {
      forall n: nat | n in cur ensures n < |t| {
        AliveNodes(t, n, v[..i]);
      }
      var next, hits' := Advance(t, cur, v[i], hits);
      StepRunning(t, v, i, cur, hits, next, hits');
      cur, hits, i := next, hits', i + 1;
    }
    RunToEnd(t, v, i, cur, hits);
    ghost var reached := hits;
    hits := Finals(t, cur, hits);
    forall l: nat ensures l in hits <==> exists ts :: Registered(t, ts, l) && Accepts(ts, v) {
      Decided(t, v, cur, reached, l);
    }
  }

  lemma {:induction false} StartRunning(t: Trie, v: Bytes, cur: seq<nat>, hits: seq<nat>)
    requires Valid(t) && Distinct(cur) && IsAlive(t, cur, []) && hits == t[0].reach
    ensures Running(t, v, 0, cur, hits)
  {
    assert v[..0] == [];
    forall l: nat ensures l in hits <==> ReachHit(t, v, 0, l) {
      StartAlive(t, 0);
      if ReachHit(t, v, 0, l) {
        var j: nat, n: nat :| j <= 0 && n < |t| && l in t[n].reach && Alive(t, n, v[..j]);
        StartAlive(t, n);
        assert !t[n].spinner;
      }
      if l in hits {
        assert 0 <= 0 && Alive(t, 0, v[..0]);
      }
    }
  }

  lemma {:induction false} StepRunning(t: Trie, v: Bytes, i: nat, cur: seq<nat>, hits: seq<nat>, next: seq<nat>,
                                       hits': seq<nat>)
    requires Valid(t) && i < |v| && Running(t, v, i, cur, hits)
    requires EnteredBy(t, cur, v[i], next) && HitBy(t, cur, v[i], hits, hits')
    ensures Running(t, v, i + 1, next, hits')
  {
    assert v[..i + 1] == v[..i] + [v[i]];
    forall n: nat ensures n in next <==> Alive(t, n, v[..i + 1]) {
      NextAlive(t, cur, v[..i], v[i], n);
    }
    forall l: nat ensures l in hits' <==> ReachHit(t, v, i + 1, l) {
      ReachStep(t, v, i, cur, l);
    }
  }

  /** Stopping early is safe: nothing more can happen. */
  lemma {:induction false} RunToEnd(t: Trie, v: Bytes, i: nat, cur: seq<nat>, hits: seq<nat>)
    requires Valid(t) && i <= |v| && Running(t, v, i, cur, hits) && (i == |v| || cur == [])
    ensures Running(t, v, |v|, cur, hits)
  {
    if i < |v| {
      DeadStaysDead(t, v, i, |v|);
      forall l: nat ensures ReachHit(t, v, |v|, l) <==> ReachHit(t, v, i, l) {
        if ReachHit(t, v, |v|, l) {
          var j: nat, n: nat :| j <= |v| && n < |t| && l in t[n].reach && Alive(t, n, v[..j]);
          if j > i {
            DeadStaysDead(t, v, i, j);
          }
        }
      }
    }
  }

  /** Appends the patterns ending at the nodes of cur. */
  method Finals(t: Trie, cur: seq<nat>, before: seq<nat>) returns (hits: seq<nat>)
    requires Valid(t) && forall n: nat :: n in cur ==> n < |t|
    ensures forall l: nat :: l in hits <==> l in before || exists n: nat :: n in cur && n < |t| && l in t[n].final
  {
    hits := before;
    for i := 0 to |cur|
      invariant forall l: nat :: l in hits <==>
                  l in before || exists n: nat :: n in cur[..i] && n < |t| && l in t[n].final
    {
      assert forall m: nat :: m in cur[..i + 1] <==> m in cur[..i] || m == cur[i];
      assert cur[i] in cur;
      hits := hits + t[cur[i]].final;
    }
    assert cur[..|cur|] == cur;
  }

  /** The leaves found are those of the patterns that accept v. */
  lemma {:induction false} Decided(t: Trie, v: Bytes, cur: seq<nat>, hits: seq<nat>, l: nat)
    requires Valid(t) && Running(t, v, |v|, cur, hits)
    ensures (l in hits || exists n: nat :: n in cur && n < |t| && l in t[n].final) <==>
            exists ts :: Registered(t, ts, l) && Accepts(ts, v)
  {
    assert v[..|v|] == v;
    if l in hits {
      var j: nat, n: nat :| j <= |v| && n < |t| && l in t[n].reach && Alive(t, n, v[..j]);
      var w :| Walk(t, w) == Some(n) && Accepts(w, v[..j]);
      AcceptsReach(w, v);
      assert (w + [Star])[..|w|] == w;
      assert Registered(t, w + [Star], l);
    }
    if exists n: nat :: n in cur && n < |t| && l in t[n].final {
      var n: nat :| n in cur && n < |t| && l in t[n].final;
      var w :| Walk(t, w) == Some(n) && Accepts(w, v);
      assert Registered(t, w, l);
    }
    forall ts | Registered(t, ts, l) && Accepts(ts, v)
      ensures l in hits || exists n: nat :: n in cur && n < |t| && l in t[n].final
    {
      RegisteredIsFound(t, v, cur, hits, ts, l);
    }
  }

  lemma {:induction false} RegisteredIsFound(t: Trie, v: Bytes, cur: seq<nat>, hits: seq<nat>, ts: seq<Token>, l: nat)
    requires Valid(t) && Running(t, v, |v|, cur, hits) && Registered(t, ts, l) && Accepts(ts, v)
    ensures l in hits || exists n: nat :: n in cur && n < |t| && l in t[n].final
  {
    assert v[..|v|] == v;
    if Walk(t, ts).Some? && l in t[Walk(t, ts).value].final {
      assert Alive(t, Walk(t, ts).value, v);
    } else {
      var w := ts[..|ts| - 1];
      assert ts == w + [Star];
      AcceptsReach(w, v);
      var k :| 0 <= k <= |v| && Accepts(w, v[..k]);
      assert Alive(t, Walk(t, w).value, v[..k]);
    }
  }
}
