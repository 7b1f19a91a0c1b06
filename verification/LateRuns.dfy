/** Runs in which a call follows conditions that do not hold, as late as `LatePaths` allows. */
module LateRuns {
  import opened ByteStrings
  import opened Expressions
  import opened LatePaths
  import opened PathProtocol
  import opened Semantics
  import Formulas
  import JsonGrammar
  import Lookups
  import Paths
  import Rules

  // -------------------------------------------------------- adding one path

  function Exists(p: Bytes): NCond {
    NCond(p, Leaf(LeafExists, []))
  }

  lemma {:induction false} ReachPrefixes(g: Setting, s: State, p: Bytes, n: nat) returns (s': State)
    requires Reaches(g, s) && Adds(s, p) && n <= |p|
    ensures Reaches(g, s') && s' == s.(prefixes := s'.prefixes) && s.prefixes <= s'.prefixes
    ensures forall q :: Paths.IsPrefix(q, p) && |q| < n ==> q in s'.prefixes
    decreases n
  {
    s' := s;
    if n > 0 {
      var before := ReachPrefixes(g, s, p, n - 1);
      s' := before;
      if p[n - 1] == DOT {
        s' := before.(prefixes := before.prefixes + {p[..n - 1]});
        assert StorePrefixOf(before, s', p, p[..n - 1]);
        ReachNext(g, before, s');
      }
    }
  }

  /** The tables after the part b of a wildcard path has been stored, in a new table if grow. */
  function WithWild(wilds: seq<set<Bytes>>, b: Bytes, grow: bool): seq<set<Bytes>>
    requires wilds != []
  {
    var last := wilds[|wilds| - 1];
    if grow then wilds + [last + {b}] else wilds[|wilds| - 1 := last + {b}]
  }

  lemma {:induction false} ReachWild(g: Setting, s: State, b: Bytes, grow: bool) returns (s': State)
    requires Reaches(g, s) && AddsWild(s, b) && (!grow ==> |s.wilds| > 1)
    ensures Reaches(g, s') && s' == s.(wilds := WithWild(s.wilds, b, grow))
  {
    var a := s;
    if grow {
      a := s.(wilds := s.wilds + [Current(s)]);
      assert GrowWilds(s, a);
      ReachNext(g, s, a);
    }
    s' := a.(wilds := a.wilds[|a.wilds| - 1 := Current(a) + {b}]);
    assert StoreWildOf(a, s', b);
    ReachNext(g, a, s');
    assert s'.wilds == WithWild(s.wilds, b, grow);
  }

  /** The tables after the path p has been stored. */
  function WildsWith(wilds: seq<set<Bytes>>, p: Bytes, grow: bool): seq<set<Bytes>>
    requires wilds != []
  {
    match Rules.WildBase(p)
    case None => wilds
    case Some(b) => WithWild(wilds, b, grow)
  }

  /** The path p, or the part of it before its ".*", is not stored yet. */
  ghost predicate CanAdd(s: State, p: Bytes, grow: bool) {
    && Adds(s, p) && s.wilds != [] && (grow || Rules.WildBase(p).None? || |s.wilds| > 1)
    && (Rules.WildBase(p).Some? ==> Rules.WildBase(p).value !in Current(s))
  }

  lemma {:induction false} ReachWilds(g: Setting, s: State, p: Bytes, grow: bool) returns (s': State)
    requires Reaches(g, s) && CanAdd(s, p, grow) && PrefixesKnown(s.prefixes, p)
    ensures Reaches(g, s') && s' == s.(wilds := WildsWith(s.wilds, p, grow))
    ensures Rules.WildBase(p).Some? ==> Rules.WildBase(p).value in Current(s')
  {
    s' := s;
    Paths.WildBaseOf(p);
    if Rules.WildBase(p).Some? {
      s' := ReachWild(g, s, Rules.WildBase(p).value, grow);
    }
  }

  lemma {:induction false} ReachStored(g: Setting, s: State, p: Bytes) returns (s': State)
    requires Reaches(g, s) && Adds(s, p) && PrefixesKnown(s.prefixes, p)
    requires Rules.WildBase(p).Some? ==> Rules.WildBase(p).value in Current(s)
    ensures Reaches(g, s') && s' == s.(paths := s.paths + {p}, writer := NextDone(s))
  {
    Paths.WildBaseOf(p);
    s' := s.(paths := s.paths + {p}, writer := NextDone(s));
    assert StorePathOf(s, s', p);
    ReachNext(g, s, s');
  }

  /** Everything is stored that has to be before the path itself. */
  lemma {:induction false} ReachStorable(g: Setting, s: State, p: Bytes, grow: bool) returns (s': State)
    requires Reaches(g, s) && CanAdd(s, p, grow)
    ensures Reaches(g, s') && Adds(s', p) && PrefixesKnown(s'.prefixes, p) && s.prefixes <= s'.prefixes
    ensures Rules.WildBase(p).Some? ==> Rules.WildBase(p).value in Current(s')
    ensures s' == s.(prefixes := s'.prefixes, wilds := WildsWith(s.wilds, p, grow))
  {
    var a := ReachPrefixes(g, s, p, |p|);
    assert CanAdd(a, p, grow);
    s' := ReachWilds(g, a, p, grow);
  }

  lemma {:induction false} ReachPath(g: Setting, s: State, p: Bytes, grow: bool) returns (s': State)
    requires Reaches(g, s) && CanAdd(s, p, grow)
    ensures Reaches(g, s') && PrefixesKnown(s'.prefixes, p) && s.prefixes <= s'.prefixes
    ensures s' == s.(paths := s.paths + {p}, prefixes := s'.prefixes, wilds := WildsWith(s.wilds, p, grow),
                     writer := NextDone(s))
  {
    var a := ReachStorable(g, s, p, grow);
    s' := ReachStored(g, a, p);
  }

  /** AddRule starts to add the sets under num. */
  lemma {:induction false} ReachAdding(g: Setting, s: State, num: nat, conds: seq<NCond>) returns (s': State)
    requires Reaches(g, s) && s.writer.Idle? && num <= |s.numbers|
    ensures Reaches(g, s')
    ensures s' == s.(writer := Adding(Job(num, [conds], None), 0, 0),
                     numbers := if num < |s.numbers| then s.numbers else s.numbers + [Number(0, [])])
  {
    s' := s.(writer := Adding(Job(num, [conds], None), 0, 0),
             numbers := if num < |s.numbers| then s.numbers else s.numbers + [Number(0, [])]);
    assert StartAddOf(s, s', num, [conds]);
    ReachNext(g, s, s');
  }

  /** AddRule ends when all paths of its only set are known. */
  lemma {:induction false} ReachAdded(g: Setting, s: State, num: nat, conds: seq<NCond>) returns (s': State)
    requires Reaches(g, s) && s.writer == Adding(Job(num, [conds], None), 0, |conds|)
    ensures Reaches(g, s') && s' == s.(rules := s.rules + {Rule(num, conds)}, writer := Idle)
  {
    var a := s.(rules := s.rules + {Rule(num, conds)}, writer := Adding(Job(num, [conds], None), 1, 0));
    assert Complete(s, a);
    ReachNext(g, s, a);
    s' := a.(writer := Idle);
    assert PathProtocol.Finish(a, s');
    ReachNext(g, a, s');
  }

  lemma {:induction false} IdleWilds(g: Setting, s: State)
    requires Inv(g, s) && s.writer.Idle?
    ensures s.wilds != [] && forall b :: b in Current(s) ==> Paths.WildPath(b) in s.paths
  {
    forall b | b in Current(s) ensures Paths.WildPath(b) in s.paths {
      assert GoodWild(s, b);
    }
  }

  lemma {:induction false} NotStored(g: Setting, s: State, p: Bytes)
    requires Reaches(g, s) && s.writer.Idle? && p !in s.paths
    ensures s.wilds != [] && (Rules.WildBase(p).Some? ==> Rules.WildBase(p).value !in Current(s))
  {
    ReachedInv(g, s);
    IdleWilds(g, s);
    Paths.WildBaseOf(p);
  }

  /** AddRule adds a rule for a new identifier that makes the path p known. */
  lemma {:induction false} ReachKnown(g: Setting, s: State, p: Bytes, grow: bool) returns (s': State)
    requires Reaches(g, s) && s.writer.Idle? && p !in s.paths && (grow || Rules.WildBase(p).None? || |s.wilds| > 1)
    ensures Reaches(g, s') && PrefixesKnown(s'.prefixes, p) && s.prefixes <= s'.prefixes && s.wilds != []
    ensures s' == s.(paths := s.paths + {p}, prefixes := s'.prefixes, wilds := WildsWith(s.wilds, p, grow),
                     numbers := s.numbers + [Number(0, [])], rules := s.rules + {Rule(|s.numbers|, [Exists(p)])})
  {
    NotStored(g, s, p);
    var a := ReachAdding(g, s, |s.numbers|, [Exists(p)]);
    var b := ReachPath(g, a, p, grow);
    s' := ReachAdded(g, b, |s.numbers|, [Exists(p)]);
  }

  /** AddRule adds a rule with {"exists": false} for a new identifier. */
  lemma {:induction false} ReachAbsent(g: Setting, s: State, p: Bytes) returns (s': State)
    requires Reaches(g, s) && s.writer.Idle? && p in s.paths
    ensures Reaches(g, s')
    ensures s' == s.(hasAbsent := true, numbers := s.numbers + [Number(0, [])],
                     rules := s.rules + {Rule(|s.numbers|, [NCond(p, Absent)])})
  {
    var a := ReachAdding(g, s, |s.numbers|, [NCond(p, Absent)]);
    var b := a.(hasAbsent := true);
    assert SetAbsent(a, b);
    ReachNext(g, a, b);
    var c := b.(writer := NextDone(b));
    assert SkipPath(b, c);
    ReachNext(g, b, c);
    s' := ReachAdded(g, c, |s.numbers|, [NCond(p, Absent)]);
  }

  // ------------------------------------------------------------ before the call

  /** h is longer than all paths that matter, and has no dots. */
  predicate IsFresh(g: Setting, conds: seq<NCond>, h: Bytes) {
    && (forall i :: 0 <= i < |h| ==> h[i] == A) && h != []
    && (forall a :: a in g.call ==> |a.path| < |h|) && forall c :: c in conds ==> |c.path| < |h|
  }

  const A: Byte := 'a' as int

  function Longest(g: Lookups.Call): (n: nat)
    ensures forall a :: a in g ==> |a.path| <= n
  {
    if g == [] then 0
    else
      var m := Longest(g[1..]);
      assert forall a :: a in g ==> a == g[0] || a in g[1..];
      if |g[0].path| > m then |g[0].path| else m
  }

  function LongestCond(conds: seq<NCond>): (n: nat)
    ensures forall c :: c in conds ==> |c.path| <= n
  {
    if conds == [] then 0
    else
      var m := LongestCond(conds[1..]);
      assert forall c :: c in conds ==> c == conds[0] || c in conds[1..];
      if |conds[0].path| > m then |conds[0].path| else m
  }

  function Fresh(g: Setting, conds: seq<NCond>): (h: Bytes)
    ensures IsFresh(g, conds, h)
  {
    seq(1 + Longest(g.call) + LongestCond(conds), _ => A)
  }

  lemma {:induction false} NotWild(p: Bytes)
    requires p != [] && p[|p| - 1] != STAR
    ensures Rules.WildBase(p).None?
  {
    if |p| > 2 {
      assert p[|p| - 2..][1] == p[|p| - 1];
    }
  }

  lemma {:induction false} FreshIs(g: Setting, conds: seq<NCond>, h: Bytes)
    requires IsFresh(g, conds, h)
    ensures Rules.WildBase(h).None? && Rules.WildBase(Paths.WildPath(h)) == Some(h)
    ensures forall p :: Rules.WildBase(p + [DOT] + h).None?
  {
    Paths.WildBaseOf(Paths.WildPath(h));
    NotWild(h);
    forall p: Bytes ensures Rules.WildBase(p + [DOT] + h).None? {
      NotWild(p + [DOT] + h);
    }
  }

  /** Before the call: only paths that are longer than those that matter are known. */
  ghost predicate Before(g: Setting, s: State, h: Bytes) {
    && Reaches(g, s) && s.writer.Idle? && s.reader.Outside? && |s.wilds| > 1 && s.hasAbsent
    && |s.numbers| > 0 && s.numbers[0] == Number(0, [])
    && (forall p :: p in s.paths ==> |h| <= |p|)
    && forall r :: r in s.rules && r.num == 0 ==> r == Rule(0, [Exists(h)])
  }

  lemma {:induction false} ReachFirst(g: Setting, conds: seq<NCond>, h: Bytes) returns (s: State)
    requires IsFresh(g, conds, h)
    ensures Before(g, s, h)
  {
    FreshIs(g, conds, h);
    ReachStart(g);
    var a := ReachKnown(g, START, h, false);
    var w := Paths.WildPath(h);
    assert |w| > |h|;
    var b := ReachKnown(g, a, w, true);
    s := ReachAbsent(g, b, h);
  }

  /** The parts of a path before its dots are known, because another path goes on from it. */
  lemma {:induction false} ReachPrefix(g: Setting, s: State, conds: seq<NCond>, h: Bytes, p: Bytes) returns (s': State)
    requires IsFresh(g, conds, h) && Before(g, s, h)
    ensures Before(g, s', h) && s.prefixes <= s'.prefixes && PrefixesKnown(s'.prefixes, p)
  {
    var q := p + [DOT] + h;
    FreshIs(g, conds, h);
    s' := s;
    if q !in s.paths {
      s' := ReachKnown(g, s, q, false);
    } else {
      ReachedInv(g, s);
      assert GoodPath(s, q);
    }
    forall r | Paths.IsPrefix(r, p) ensures r in s'.prefixes {
      assert r == q[..|r|] && q[|r|] == p[|r|];
      assert Paths.IsPrefix(r, q);
    }
  }

  lemma {:induction false} ReachAllPrefixes(g: Setting, conds: seq<NCond>, h: Bytes, n: nat) returns (s: State)
    requires IsFresh(g, conds, h) && n <= |conds|
    ensures Before(g, s, h) && forall k :: 0 <= k < n ==> PrefixesKnown(s.prefixes, conds[k].path)
    decreases n
  {
    if n == 0 {
      s := ReachFirst(g, conds, h);
    } else {
      var a := ReachAllPrefixes(g, conds, h, n - 1);
      s := ReachPrefix(g, a, conds, h, conds[n - 1].path);
      forall k | 0 <= k < n - 1 ensures PrefixesKnown(s.prefixes, conds[k].path) {
        PrefixesMore(a.prefixes, s.prefixes, conds[k].path);
      }
    }
  }

  // ------------------------------------------------------------ during the call

  /** What the call has found for the condition c so far. */
  ghost predicate FoundLate(g: Setting, found: seq<bool>, c: NCond, late: Late) {
    forall x :: 0 <= x < |found| && x < |g.call| ==>
      && (g.call[x].Enter? && Paths.IsPrefix(g.call[x].path, c.path) ==> found[x])
      && (g.call[x].Value? && g.call[x].path == c.path ==> (found[x] <==> late.t <= x))
      && (LooksFor(g.call[x], c.path) ==> (found[x] <==> late.Live? && late.t <= x))
  }

  /** What is known of the path of c: it is known if done, and in the table the call holds if it is live too. */
  ghost predicate KnownLate(s: State, c: NCond, late: Late, done: bool)
    requires s.reader.Reading?
  {
    && PrefixesKnown(s.prefixes, c.path) && (c.path in s.paths <==> done)
    && (Rules.WildBase(c.path).Some? ==> (InTable(s, c.path) <==> done && late.Live?))
  }

  /** The conditions in done are known, and the call is about to look further. */
  ghost predicate During(g: Setting, s: State, conds: seq<NCond>, lates: seq<Late>, h: Bytes, done: set<nat>) {
    && Reaches(g, s) && s.writer.Idle? && s.reader.Reading? && s.hasAbsent && s.reader.absent
    && |s.numbers| > 0 && s.numbers[0] == Number(0, []) && s.reader.limit > 0
    && (forall r :: r in s.rules && r.num == 0 ==> r == Rule(0, [Exists(h)]))
    && 0 < s.reader.table < |s.wilds| && |s.reader.found| <= |g.call| && |lates| == |conds|
    && (forall k :: 0 <= k < |conds| ==> KnownLate(s, conds[k], lates[k], k in done))
    && forall k :: 0 <= k < |conds| ==> FoundLate(g, s.reader.found, conds[k], lates[k])
  }

  /** The table the call holds is current until a stale wildcard path is stored. */
  ghost predicate TableCurrent(s: State, conds: seq<NCond>, lates: seq<Late>, done: set<nat>)
    requires s.reader.Reading? && |lates| == |conds|
  {
    s.reader.table == |s.wilds| - 1 ||
    exists k :: k in done && k < |conds| && Rules.WildBase(conds[k].path).Some? && lates[k].Stale?
  }

  ghost predicate Distinct(conds: seq<NCond>) {
    forall i, j :: 0 <= i < j < |conds| ==> conds[i].path != conds[j].path
  }

  /** While the writer is idle, all paths in the table are known. */
  lemma {:induction false} InTableKnown(g: Setting, s: State, p: Bytes)
    requires Reaches(g, s) && s.writer.Idle? && s.reader.Reading? && InTable(s, p)
    ensures p in s.paths
  {
    ReachedInv(g, s);
    var b :| b in s.wilds[s.reader.table] && b != [] && p == Paths.WildPath(b);
    assert b in Current(s) && GoodWild(s, b);
  }

  lemma {:induction false} ReachCall(g: Setting, conds: seq<NCond>, lates: seq<Late>, h: Bytes) returns (s: State)
    requires IsFresh(g, conds, h) && |lates| == |conds|
    ensures During(g, s, conds, lates, h, {}) && TableCurrent(s, conds, lates, {}) && s.reader.found == []
  {
    var a := ReachAllPrefixes(g, conds, h, |conds|);
    ReachedInv(g, a);
    var b := a.(reader := HasVersion(a.version, a.paths, a.rules));
    assert LoadVersion(a, b);
    ReachNext(g, a, b);
    var c := b.(reader := HasLimit(b.version, a.paths, a.rules, |b.numbers|));
    assert LoadIds(b, c);
    ReachNext(g, b, c);
    var d := c.(reader := HasAbsent(b.version, a.paths, a.rules, |b.numbers|, c.hasAbsent));
    assert LoadAbsent(c, d);
    ReachNext(g, c, d);
    s := d.(reader := Reading(b.version, a.paths, a.rules, |b.numbers|, true, |d.wilds| - 1, []));
    assert LoadWilds(d, s);
    ReachNext(g, d, s);
    forall k | 0 <= k < |conds| ensures KnownLate(s, conds[k], lates[k], k in {}) {
      if InTable(s, conds[k].path) {
        InTableKnown(g, s, conds[k].path);
      }
    }
  }

  lemma {:induction false} StoredInTable(s: State, s': State, p: Bytes, grow: bool, q: Bytes)
    requires s.reader.Reading? && s'.reader == s.reader && s.reader.table < |s.wilds|
    requires s'.wilds == WildsWith(s.wilds, p, grow) && Rules.WildBase(q).Some?
    ensures InTable(s', q) <==> InTable(s, q) || (p == q && !grow && s.reader.table == |s.wilds| - 1)
  {
    var t := s.reader.table;
    Paths.WildBaseOf(p);
    Paths.WildBaseOf(q);
    var b := Rules.WildBase(q).value;
    forall c: Bytes | q == Paths.WildPath(c) ensures c == b {
      Paths.WildPathInjective(b, c);
    }
    assert InTable(s, q) <==> b in s.wilds[t];
    assert InTable(s', q) <==> b in s'.wilds[t];
    if Rules.WildBase(p).Some? {
      Paths.WildPathInjective(b, Rules.WildBase(p).value);
    }
  }

  /** A live wildcard path has to be stored in the table the call holds. */
  predicate NeedsCurrent(s: State, c: NCond, late: Late)
    requires s.reader.Reading?
  {
    late.Live? && Rules.WildBase(c.path).Some? ==> s.reader.table == |s.wilds| - 1
  }

  /** The path of one more condition becomes known. */
  lemma {:induction false} ReachOne(g: Setting, s: State, conds: seq<NCond>, lates: seq<Late>, h: Bytes, done: set<nat>,
                                    k: nat) returns (s': State)
    requires During(g, s, conds, lates, h, done) && Distinct(conds) && k < |conds| && k !in done
    requires TableCurrent(s, conds, lates, done) && NeedsCurrent(s, conds[k], lates[k])
    ensures During(g, s', conds, lates, h, done + {k}) && TableCurrent(s', conds, lates, done + {k})
    ensures s'.reader == s.reader
  {
    var p := conds[k].path;
    assert KnownLate(s, conds[k], lates[k], false);
    s' := ReachKnown(g, s, p, lates[k].Stale?);
    forall j | 0 <= j < |conds| ensures KnownLate(s', conds[j], lates[j], j in done + {k}) {
      KnownOther(s, s', conds, lates, done, k, j);
    }
    assert |s'.wilds| == |s.wilds| ||
           (k in done + {k} && Rules.WildBase(conds[k].path).Some? && lates[k].Stale?);
  }

  lemma {:induction false} KnownOther(s: State, s': State, conds: seq<NCond>, lates: seq<Late>, done: set<nat>, k: nat,
                                      j: nat)
    requires s.reader.Reading? && s'.reader == s.reader && s.reader.table < |s.wilds| && |lates| == |conds|
    requires k < |conds| && j < |conds| && k !in done && Distinct(conds)
    requires KnownLate(s, conds[j], lates[j], j in done) && s.prefixes <= s'.prefixes
    requires s'.paths == s.paths + {conds[k].path}
    requires s'.wilds == WildsWith(s.wilds, conds[k].path, lates[k].Stale?)
    requires NeedsCurrent(s, conds[k], lates[k])
    ensures KnownLate(s', conds[j], lates[j], j in done + {k})
  {
    PrefixesMore(s.prefixes, s'.prefixes, conds[j].path);
    assert conds[j].path == conds[k].path ==> j == k;
    if Rules.WildBase(conds[j].path).Some? {
      StoredInTable(s, s', conds[k].path, lates[k].Stale?, conds[j].path);
    }
  }

  /** The call makes its next lookup when exactly the paths that are found by it are known. */
  lemma {:induction false} ReachRead(g: Setting, s: State, conds: seq<NCond>, lates: seq<Late>, h: Bytes,
                                     done: set<nat>) returns (s': State)
    requires During(g, s, conds, lates, h, done) && |s.reader.found| < |g.call|
    requires TableCurrent(s, conds, lates, done)
    requires forall k: nat :: k < |conds| ==> (k in done <==> lates[k].t <= |s.reader.found|)
    ensures During(g, s', conds, lates, h, done) && TableCurrent(s', conds, lates, done)
    ensures s'.reader == s.reader.(found := s'.reader.found) && |s'.reader.found| == |s.reader.found| + 1
  {
    var n := |s.reader.found|;
    var answer := Answer(s, s.reader.table, g.call[n]);
    s' := s.(reader := s.reader.(found := s.reader.found + [answer]));
    assert LookUp(g, s, s');
    ReachNext(g, s, s');
    forall k | 0 <= k < |conds| ensures KnownLate(s', conds[k], lates[k], k in done) {
      assert KnownLate(s, conds[k], lates[k], k in done);
      assert InTable(s', conds[k].path) <==> InTable(s, conds[k].path);
    }
    forall k | 0 <= k < |conds| ensures FoundLate(g, s'.reader.found, conds[k], lates[k]) {
      AnswerLate(g, s, conds[k], lates[k], k in done, g.call[n]);
      FoundNext(g, s.reader.found, answer, conds[k], lates[k]);
    }
  }

  lemma {:induction false} AnswerLate(g: Setting, s: State, c: NCond, late: Late, done: bool, a: Lookups.Lookup)
    requires s.reader.Reading? && KnownLate(s, c, late, done)
    ensures a.Enter? && Paths.IsPrefix(a.path, c.path) ==> Answer(s, s.reader.table, a)
    ensures a.Value? && a.path == c.path ==> (Answer(s, s.reader.table, a) <==> done)
    ensures LooksFor(a, c.path) ==> (Answer(s, s.reader.table, a) <==> late.Live? && done)
  {
    if LooksFor(a, c.path) {
      Paths.WildBaseOf(c.path);
      if InTable(s, c.path) {
        LookAnswers(s, c.path, a);
      }
    }
  }

  lemma {:induction false} FoundNext(g: Setting, found: seq<bool>, answer: bool, c: NCond, late: Late)
    requires |found| < |g.call| && FoundLate(g, found, c, late)
    requires var a, n := g.call[|found|], |found|;
             && (a.Enter? && Paths.IsPrefix(a.path, c.path) ==> answer)
             && (a.Value? && a.path == c.path ==> (answer <==> late.t <= n))
             && (LooksFor(a, c.path) ==> (answer <==> late.Live? && late.t <= n))
    ensures FoundLate(g, found + [answer], c, late)
  {
  }

  /** Live paths become known before stale ones. */
  function Rank(late: Late): nat {
    2 * late.t + if late.Stale? then 1 else 0
  }

  /** The conditions below rank r, and those of rank r among the first j. */
  function Upto(lates: seq<Late>, r: nat, j: nat): set<nat> {
    set k: nat | k < |lates| && (Rank(lates[k]) < r || (Rank(lates[k]) == r && k < j))
  }

  function Min(a: nat, b: nat): nat {
    if a < b then a else b
  }

  /** The table is current as long as live wildcard paths are to be stored. */
  lemma {:induction false} StillCurrent(g: Setting, s: State, turn: nat, conds: seq<NCond>, lates: seq<Late>, k: nat)
    requires s.reader.Reading? && LateFor(g, turn, conds, lates) && k < |conds|
    requires TableCurrent(s, conds, lates, Upto(lates, Rank(lates[k]), k))
    ensures NeedsCurrent(s, conds[k], lates[k])
  {
    if lates[k].Live? && Rules.WildBase(conds[k].path).Some? {
      forall i | i in Upto(lates, Rank(lates[k]), k) && i < |conds| && Rules.WildBase(conds[i].path).Some?
        ensures !lates[i].Stale?
      {
        assert Fits(g, turn, conds[i].path, lates[i]) && Fits(g, turn, conds[k].path, lates[k]);
      }
    }
  }

  /** The call has read on while the paths up to a rank became known. */
  ghost predicate RankReached(g: Setting, s: State, conds: seq<NCond>, lates: seq<Late>, h: Bytes, r: nat, j: nat) {
    && During(g, s, conds, lates, h, Upto(lates, r, j)) && TableCurrent(s, conds, lates, Upto(lates, r, j))
    && |s.reader.found| == Min(r / 2, |g.call|)
  }

  lemma {:induction false} ReachCond(g: Setting, s: State, turn: nat, conds: seq<NCond>, lates: seq<Late>, h: Bytes,
                                     r: nat, j: nat) returns (s': State)
    requires LateFor(g, turn, conds, lates) && Distinct(conds) && j < |conds|
    requires RankReached(g, s, conds, lates, h, r, j)
    ensures RankReached(g, s', conds, lates, h, r, j + 1)
  {
    if Rank(lates[j]) == r {
      StillCurrent(g, s, turn, conds, lates, j);
      s' := ReachOne(g, s, conds, lates, h, Upto(lates, r, j), j);
      assert Upto(lates, r, j + 1) == Upto(lates, r, j) + {j};
    } else {
      s' := s;
      assert Upto(lates, r, j + 1) == Upto(lates, r, j);
    }
  }

  lemma {:induction false} ReachTime(g: Setting, s: State, conds: seq<NCond>, lates: seq<Late>, h: Bytes, r: nat)
    returns (s': State)
    requires |lates| == |conds| && RankReached(g, s, conds, lates, h, r, |conds|)
    ensures RankReached(g, s', conds, lates, h, r + 1, 0)
  {
    assert Upto(lates, r + 1, 0) == Upto(lates, r, |conds|);
    s' := s;
    if r % 2 == 1 && r / 2 < |g.call| {
      s' := ReachRead(g, s, conds, lates, h, Upto(lates, r, |conds|));
    }
  }

  lemma {:induction false} ReachRank(g: Setting, turn: nat, conds: seq<NCond>, lates: seq<Late>, h: Bytes, r: nat,
                                     j: nat) returns (s: State)
    requires LateFor(g, turn, conds, lates) && Distinct(conds) && IsFresh(g, conds, h) && j <= |conds|
    ensures RankReached(g, s, conds, lates, h, r, j)
    decreases r, j
  {
    if j > 0 {
      var a := ReachRank(g, turn, conds, lates, h, r, j - 1);
      s := ReachCond(g, a, turn, conds, lates, h, r, j - 1);
    } else if r > 0 {
      var a := ReachRank(g, turn, conds, lates, h, r - 1, |conds|);
      s := ReachTime(g, a, conds, lates, h, r - 1);
    } else {
      s := ReachCall(g, conds, lates, h);
      assert Upto(lates, 0, 0) == {};
    }
  }

  // ------------------------------------------------------------- after the call

  /** All conditions are known, and the call has read everything. */
  ghost predicate After(g: Setting, s: State, conds: seq<NCond>, lates: seq<Late>, h: Bytes) {
    && |lates| == |conds| && During(g, s, conds, lates, h, Upto(lates, 2 * |g.call| + 2, 0)) && Ready(g, s)
    && forall k :: 0 <= k < |conds| ==> Rank(lates[k]) < 2 * |g.call| + 2
  }

  lemma {:induction false} ReachAfter(g: Setting, turn: nat, conds: seq<NCond>, lates: seq<Late>, h: Bytes)
    returns (s: State)
    requires LateFor(g, turn, conds, lates) && Distinct(conds) && IsFresh(g, conds, h)
    ensures After(g, s, conds, lates, h)
  {
    var r := 2 * |g.call| + 2;
    s := ReachRank(g, turn, conds, lates, h, r, 0);
    forall k: nat | k < |conds| ensures Rank(lates[k]) < r {
      assert Fits(g, turn, conds[k].path, lates[k]);
    }
  }

  lemma {:induction false} ReachSkipped(g: Setting, s: State, conds: seq<NCond>, i: nat) returns (s': State)
    requires Reaches(g, s) && s.writer == Adding(Job(0, [conds], None), 0, 0) && s.hasAbsent && i <= |conds|
    requires forall c :: c in conds ==> c.path in s.paths
    ensures Reaches(g, s') && s' == s.(writer := Adding(Job(0, [conds], None), 0, i))
    decreases i
  {
    if i == 0 {
      s' := s;
    } else {
      var a := ReachSkipped(g, s, conds, i - 1);
      s' := a.(writer := NextDone(a));
      assert SkipPath(a, s');
      ReachNext(g, a, s');
    }
  }

  /** The identifier the call sees gets the condition set as one more rule. */
  lemma {:induction false} ReachRule(g: Setting, s: State, conds: seq<NCond>, lates: seq<Late>, h: Bytes)
    returns (s': State)
    requires After(g, s, conds, lates, h)
    ensures Reaches(g, s') && s' == s.(rules := s.rules + {Rule(0, conds)})
  {
    forall c | c in conds ensures c.path in s.paths {
      var k: nat :| k < |conds| && conds[k] == c;
      assert KnownLate(s, conds[k], lates[k], true);
    }
    var a := ReachAdding(g, s, 0, conds);
    var b := ReachSkipped(g, a, conds, |conds|);
    s' := ReachAdded(g, b, 0, conds);
  }

  lemma {:induction false} LateRecorded(g: Setting, found: seq<bool>, c: NCond, late: Late, live: bool, x: nat)
    requires GoodSetting(g) && |found| == |g.call| && FoundLate(g, found, c, late) && Asks(g, c.path, live, x)
    ensures Recorded(g, found, x)
  {
    forall e | e in g.call[x].outer && e < |g.call| && g.call[e].Enter? ensures found[e] {
      Lookups.OuterOf(g.call, x, e);
      EnclosingPrefix(g.call[e], g.call[x], c.path);
    }
  }

  lemma {:induction false} LateFound(g: Setting, found: seq<bool>, c: NCond, late: Late, live: bool)
    requires GoodSetting(g) && |found| == |g.call| && FoundLate(g, found, c, late) && (live ==> late.Live?)
    ensures FoundFrom(g, found, c.path, live, late.t)
  {
    forall x: nat | Asks(g, c.path, live, x) ensures Hits(g, found, c.path, x) <==> late.t <= x {
      LateRecorded(g, found, c, late, live, x);
      if g.call[x].Value? && BelowPath(g, found, x, c.path) {
        var z :| z in g.call[x].outer && z < |g.call| && LooksFor(g.call[z], c.path) && found[z];
        Lookups.OuterOf(g.call, x, z);
      }
    }
  }

  /** For a path that is no wildcard path there is no difference between live and stale. */
  lemma {:induction false} NotWildLate(g: Setting, p: Bytes, late: Late)
    requires Rules.WildBase(p).None?
    ensures LateKept(g, p, late) == LateKept(g, p, Live(late.t))
  {
    Paths.WildBaseOf(p);
    assert forall i :: i in LateKept(g, p, late) <==> i in LateKept(g, p, Live(late.t));
  }

  lemma {:induction false} NotWildFound(g: Setting, found: seq<bool>, c: NCond, late: Late)
    requires Rules.WildBase(c.path).None? && FoundLate(g, found, c, late)
    ensures FoundLate(g, found, c, Live(late.t))
  {
    Paths.WildBaseOf(c.path);
  }

  /** The call has gathered what it should for the condition. */
  lemma {:induction false} GatheredLate(g: Setting, s: State, turn: nat, c: NCond, late: Late)
    requires AllRead(g, s, turn) && KnownLate(s, c, late, true) && FoundLate(g, s.reader.found, c, late)
    ensures Kept(g, s.reader.found, c.path) == LateKept(g, c.path, late)
  {
    var found := s.reader.found;
    if Rules.WildBase(c.path).None? {
      NotWildLate(g, c.path, late);
      NotWildFound(g, found, c, late);
      LateFound(g, found, c, Live(late.t), true);
      LiveKept(g, s, turn, c.path, late.t);
    } else if late.Live? {
      LateFound(g, found, c, late, true);
      LiveKept(g, s, turn, c.path, late.t);
    } else {
      LateFound(g, found, c, late, false);
      StaleKept(g, s, turn, c.path, late.t);
    }
  }

  lemma {:induction false} FollowsLate(g: Setting, s: State, conds: seq<NCond>, lates: seq<Late>, h: Bytes)
    requires GoodSetting(g) && After(g, s, conds, lates, h) && AllHoldLate(g, conds, lates)
    ensures Follows(g, s, conds)
  {
    ReachedInv(g, s);
    var run :| IsRun(g, run) && run[|run| - 1] == s;
    TurnedRun(g, run, |run| - 1);
    var turn :| Turned(g, s, turn);
    forall c | c in conds ensures CondFollowed(g, s, c) {
      var k: nat :| k < |conds| && conds[k] == c;
      assert KnownLate(s, conds[k], lates[k], true);
      GatheredLate(g, s, turn, c, lates[k]);
    }
  }

  // ------------------------------------------------------- when it goes wrong

  /** The call follows the condition set and reports an identifier none of whose rules holds. */
  ghost predicate Wrong(g: Setting, s: State, conds: seq<NCond>) {
    Ready(g, s) && exists n: nat :: Reports(g, s, conds, n)
  }

  ghost predicate Reports(g: Setting, s: State, conds: seq<NCond>, n: nat)
    requires Ready(g, s)
  {
    && Visible(s, n) && Rule(n, conds) in s.rules && Follows(g, s, conds)
    && forall r :: r in s.rules && r.num == n ==> !SetHolds(g.w, r.conds, EventOf(g))
  }

  /** No property is at a fresh path. */
  lemma {:induction false} FreshFails(g: Setting, conds: seq<NCond>, h: Bytes)
    requires IsFresh(g, conds, h)
    ensures !SetHolds(g.w, [Exists(h)], EventOf(g))
  {
    FreshIs(g, conds, h);
    NaiveValues(g, h);
    CollectNone(g.call, Referring(g.call, h), |g.call|);
    assert Exists(h) in [Exists(h)];
  }

  lemma {:induction false} CollectNone(call: Lookups.Call, keep: set<nat>, n: nat)
    requires n <= |call| && keep == {}
    ensures Collect(call, keep, n) == []
  {
    if n > 0 {
      CollectNone(call, keep, n - 1);
    }
  }

  lemma {:induction false} GoesWrong(g: Setting, turn: nat, conds: seq<NCond>, lates: seq<Late>) returns (s: State)
    requires GoodSetting(g) && Distinct(conds) && LateFor(g, turn, conds, lates) && AllHoldLate(g, conds, lates)
    requires !SetHolds(g.w, conds, EventOf(g))
    ensures Reaches(g, s) && Wrong(g, s, conds)
  {
    var h := Fresh(g, conds);
    var a := ReachAfter(g, turn, conds, lates, h);
    s := ReachRule(g, a, conds, lates, h);
    FollowsLate(g, a, conds, lates, h);
    FreshFails(g, conds, h);
    assert Follows(g, s, conds);
    assert Reports(g, s, conds, 0);
  }

  /**
   * A call can report an identifier none of whose rules holds because it
   * follows a condition set exactly if the set does not hold, and each of its
   * conditions holds for the values from where its path became known.
   */
  lemma {:induction false} GoesWrongIff(g: Setting, conds: seq<NCond>)
    requires GoodSetting(g) && Distinct(conds)
    ensures (exists s :: Reaches(g, s) && Wrong(g, s, conds)) <==>
            !SetHolds(g.w, conds, EventOf(g)) && CanHoldLate(g, conds)
  {
    if s :| Reaches(g, s) && Wrong(g, s, conds) {
      var n: nat :| Reports(g, s, conds, n);
      assert Rule(n, conds) in s.rules;
      var turn, lates := LateExact(g, s, conds);
    }
    if !SetHolds(g.w, conds, EventOf(g)) && CanHoldLate(g, conds) {
      var turn, lates :| LateFor(g, turn, conds, lates) && AllHoldLate(g, conds, lates);
      var s := GoesWrong(g, turn, conds, lates);
    }
  }

  /** For one condition, any time will do, before or after the table is old. */
  lemma {:induction false} CanHoldOne(g: Setting, c: NCond)
    ensures CanHoldLate(g, [c]) <==> exists late: Late :: late.t <= |g.call| && LateHolds(g, c, late)
  {
    if CanHoldLate(g, [c]) {
      var turn, lates :| LateFor(g, turn, [c], lates) && AllHoldLate(g, [c], lates);
      assert Fits(g, turn, [c][0].path, lates[0]) && LateHolds(g, [c][0], lates[0]);
    }
    if late: Late :| late.t <= |g.call| && LateHolds(g, c, late) {
      assert LateFor(g, late.t, [c], [late]) && AllHoldLate(g, [c], [late]);
    }
  }

  /** A condition of which no call is misled. */
  ghost predicate Safe(g: Setting, c: NCond) {
    || (WellFormed(c) && !c.expr.Absent? && Formulas.Monotone(c.expr))
    || (g.direct && Rules.WildBase(c.path).None?)
  }

  /** Rules without negations never go wrong, and in Match, rules without wildcard paths. */
  lemma {:induction false} SafeNeverWrong(g: Setting, s: State, conds: seq<NCond>)
    requires GoodSetting(g) && Reaches(g, s) && forall c :: c in conds ==> Safe(g, c)
    ensures !Wrong(g, s, conds)
  {
    if Wrong(g, s, conds) {
      var n: nat :| Reports(g, s, conds, n);
      forall c | c in conds ensures CondHoldsOn(g.w, c, EventOf(g)) {
        if g.direct && Rules.WildBase(c.path).None? {
          DirectNeverWrong(g, s, c);
        } else {
          PositiveNeverWrong(g, s, c);
        }
      }
    }
  }

  // ------------------------------------------------------------------ examples

  const B: Byte := 'b' as int

  function Part(call: Lookups.Call, keep: set<nat>, i: nat): seq<Bytes>
    requires i < |call|
  {
    if call[i].Value? && i in keep then call[i].values else []
  }

  lemma {:induction false} OneCollected(call: Lookups.Call, keep: set<nat>)
    requires |call| == 1
    ensures Collect(call, keep, 1) == Part(call, keep, 0)
  {
    assert [] + Part(call, keep, 0) == Part(call, keep, 0);
  }

  /** MatchJSON: {"a": [{"exists": false}]} is followed for {"a": x}. */
  lemma {:induction false} AbsentGoesWrong(w: World, x: Bytes)
    ensures var members := [JsonGrammar.Member([A], JsonGrammar.JText(x))];
            var g, c := Setting(w, Lookups.OfMatchJson(members), false), NCond([A], Absent);
            GoodSetting(g) && exists s :: Reaches(g, s) && Wrong(g, s, [c])
  {
    var members := [JsonGrammar.Member([A], JsonGrammar.JText(x))];
    var g, c := Setting(w, Lookups.OfMatchJson(members), false), NCond([A], Absent);
    Lookups.OfMatchJsonGood(members);
    AbsentCall(x);
    var call := g.call;
    assert LateKept(g, [A], Live(1)) == {} && Referring(call, [A]) == {0};
    OneCollected(call, {});
    OneCollected(call, {0});
    assert LateHolds(g, c, Live(1));
    NaiveValues(g, [A]);
    assert Rules.ValuesAt(EventOf(g), [A]) == [x];
    assert c in [c] && !CondHoldsOn(w, c, EventOf(g));
    CanHoldOne(g, c);
    GoesWrongIff(g, [c]);
  }

  /** The lookups for an object with one member, whose key has no dots. */
  lemma {:induction false} OneMember(g: Lookups.Call, m: JsonGrammar.Member, prefix: Bytes, outer: seq<nat>)
    requires DOT !in m.key
    ensures Lookups.AddMembers(g, [m], prefix, outer) == Lookups.AddValue(g, m.value, prefix + m.key, outer)
  {
    assert [m][..0] == [];
    assert Lookups.AddMembers(g, [m][..0], prefix, outer) == g;
    NoDots(g, prefix + m.key, |prefix|, outer);
  }

  lemma {:induction false} NoDots(g: Lookups.Call, path: Bytes, i: nat, outer: seq<nat>)
    requires forall j :: i <= j < |path| ==> path[j] != DOT
    ensures Lookups.AddLooks(g, path, i, outer) == Lookups.Opened(g, outer)
    decreases |path| - i
  {
    if i < |path| {
      NoDots(g, path, i + 1, outer);
    }
  }

  lemma {:induction false} AbsentCall(x: Bytes)
    ensures Lookups.OfMatchJson([JsonGrammar.Member([A], JsonGrammar.JText(x))]) == [Lookups.Value([A], [x], [])]
  {
    OneMember([], JsonGrammar.Member([A], JsonGrammar.JText(x)), [], []);
    assert [] + [A] == [A];
  }

  /** One more member, whose key has no dots. */
  lemma {:induction false} MoreMembers(g: Lookups.Call, members: seq<JsonGrammar.Member>, m: JsonGrammar.Member,
                                       prefix: Bytes, outer: seq<nat>)
    requires DOT !in m.key
    ensures Lookups.AddMembers(g, members + [m], prefix, outer) ==
            Lookups.AddValue(Lookups.AddMembers(g, members, prefix, outer), m.value, prefix + m.key, outer)
  {
    var all := members + [m];
    assert all[..|all| - 1] == members;
    NoDots(Lookups.AddMembers(g, members, prefix, outer), prefix + m.key, |prefix|, outer);
  }

  /** The condition {"anythingBut": [x]} on the wildcard path "a.*". */
  function NotBelowA(w: World, x: Bytes): NCond {
    NCond([A, DOT, STAR], Not(Leaf(LeafEquals, w.fold(x))))
  }

  lemma {:induction false} NotBelowAHolds(w: World, x: Bytes, vs: seq<Bytes>)
    ensures CondHolds(w, NotBelowA(w, x), Rules.FoldAll(w, vs)) <==>
            vs != [] && forall v :: v in vs ==> w.fold(v) != w.fold(x)
  {
    var fs, leaf := Rules.FoldAll(w, vs), Leaf(LeafEquals, w.fold(x));
    if v :| v in vs && w.fold(v) == w.fold(x) {
      var i :| 0 <= i < |vs| && vs[i] == v;
      assert fs[i] in fs && LeafMatches(w, LeafEquals, w.fold(x), fs[i]);
      assert Holds(w, leaf, fs);
    }
    if Holds(w, leaf, fs) {
      var i :| 0 <= i < |fs| && LeafMatches(w, LeafEquals, w.fold(x), fs[i]);
      assert vs[i] in vs && w.fold(vs[i]) == w.fold(x);
    }
  }

  /** A call that gathers some but not all values, for a condition that holds only for some of them. */
  lemma {:induction false} SomeGoWrong(g: Setting, x: Bytes, late: Late, some: seq<Bytes>, all: seq<Bytes>)
    requires GoodSetting(g) && late.t <= |g.call|
    requires Collect(g.call, LateKept(g, [A, DOT, STAR], late), |g.call|) == some
    requires Collect(g.call, Referring(g.call, [A, DOT, STAR]), |g.call|) == all
    requires x in all && some != [] && forall v :: v in some ==> g.w.fold(v) != g.w.fold(x)
    ensures exists s :: Reaches(g, s) && Wrong(g, s, [NotBelowA(g.w, x)])
  {
    var c := NotBelowA(g.w, x);
    NaiveValues(g, c.path);
    NotBelowAHolds(g.w, x, some);
    NotBelowAHolds(g.w, x, all);
    assert LateHolds(g, c, late);
    assert c in [c] && !CondHoldsOn(g.w, c, EventOf(g));
    CanHoldOne(g, c);
    GoesWrongIff(g, [c]);
  }

  lemma {:induction false} PathsBelowA()
    ensures Paths.WildPath([A]) == [A, DOT, STAR] && Rules.WildBase([A, DOT, STAR]) == Some([A])
    ensures forall c :: Rules.RefersTo([A, DOT, STAR], [A, DOT, c])
    ensures forall b: Bytes :: Paths.WildPath(b) == [A, DOT, STAR] ==> b == [A]
  {
    Paths.WildBaseOf([A, DOT, STAR]);
    forall c ensures Rules.RefersTo([A, DOT, STAR], [A, DOT, c]) {
      RefersIs([A, DOT, STAR], [A, DOT, c]);
      assert [A, DOT, c][..1] == [A] && Paths.IsPrefix([A], [A, DOT, c]);
    }
    forall b: Bytes | Paths.WildPath(b) == [A, DOT, STAR] ensures b == [A] {
      Paths.WildPathInjective(b, [A]);
    }
  }

  /** The lookups of Match for {"a.a": x, "a.b": y}. */
  function BelowCall(x: Bytes, y: Bytes): Lookups.Call {
    [Lookups.Look([A], []), Lookups.Value([A, DOT, A], [x], [0]),
     Lookups.Look([A], []), Lookups.Value([A, DOT, B], [y], [2])]
  }

  lemma {:induction false} OneDot(g: Lookups.Call, c: Byte)
    requires c != DOT
    ensures Lookups.AddLooks(g, [A, DOT, c], 0, []) == Lookups.Opened(g + [Lookups.Look([A], [])], [|g|])
  {
    var path: Bytes := [A, DOT, c];
    assert path[..1] == [A];
    NoDots(g + [Lookups.Look([A], [])], path, 2, [|g|]);
    assert Lookups.AddLooks(g, path, 1, []) ==
           Lookups.AddLooks(g + [Lookups.Look([A], [])], path, 2, [] + [|g|]);
  }

  lemma {:induction false} BelowCallIs(x: Bytes, y: Bytes)
    ensures Lookups.OfMatch([Rules.Property([A, DOT, A], [x]), Rules.Property([A, DOT, B], [y])]) == BelowCall(x, y)
  {
    var first, second := Rules.Property([A, DOT, A], [x]), Rules.Property([A, DOT, B], [y]);
    assert [first, second][..1] == [first] && [first][..0] == [];
    assert Lookups.OfMatch([first][..0]) == [];
    OneDot([], A);
    OneDot(Lookups.OfMatch([first]), B);
  }

  lemma {:induction false} BelowKept(g: Setting, x: Bytes, y: Bytes)
    requires g.call == BelowCall(x, y)
    ensures LateKept(g, [A, DOT, STAR], Live(2)) == {3} && Referring(g.call, [A, DOT, STAR]) == {1, 3}
  {
    var p: Bytes := [A, DOT, STAR];
    PathsBelowA();
    assert LooksFor(g.call[2], p) && 2 in g.call[3].outer && LooksSince(g, p, 2, 3);
    assert !LooksSince(g, p, 2, 1);
  }

  lemma {:induction false} BelowGoesWrong(g: Setting, x: Bytes, y: Bytes)
    requires GoodSetting(g) && g.call == BelowCall(x, y) && g.w.fold(x) != g.w.fold(y)
    ensures exists s :: Reaches(g, s) && Wrong(g, s, [NotBelowA(g.w, x)])
  {
    BelowKept(g, x, y);
    FourCollected(g.call, {3});
    FourCollected(g.call, {1, 3});
    SomeGoWrong(g, x, Live(2), [y], [x, y]);
  }

  /** Match: {"a.*": [{"anythingBut": [x]}]} is followed for {"a.a": x, "a.b": y}. */
  lemma {:induction false} WildcardGoesWrong(w: World, x: Bytes, y: Bytes)
    requires w.fold(x) != w.fold(y)
    ensures var event := [Rules.Property([A, DOT, A], [x]), Rules.Property([A, DOT, B], [y])];
            var g := Setting(w, Lookups.OfMatch(event), true);
            GoodSetting(g) && exists s :: Reaches(g, s) && Wrong(g, s, [NotBelowA(w, x)])
  {
    var event := [Rules.Property([A, DOT, A], [x]), Rules.Property([A, DOT, B], [y])];
    Lookups.OfMatchGood(event);
    BelowCallIs(x, y);
    BelowGoesWrong(Setting(w, Lookups.OfMatch(event), true), x, y);
  }

  lemma {:induction false} FourCollected(call: Lookups.Call, keep: set<nat>)
    requires |call| == 4
    ensures Collect(call, keep, 4) ==
            Part(call, keep, 0) + Part(call, keep, 1) + Part(call, keep, 2) + Part(call, keep, 3)
  {
    assert Collect(call, keep, 1) == [] + Part(call, keep, 0) == Part(call, keep, 0);
    assert Collect(call, keep, 2) == Collect(call, keep, 1) + Part(call, keep, 1);
    assert Collect(call, keep, 3) == Collect(call, keep, 2) + Part(call, keep, 2);
  }

  /** The lookups of MatchJSON for {"a": {"*": y, "b": x}}. */
  function StarCall(x: Bytes, y: Bytes): Lookups.Call {
    [Lookups.Enter([A], []), Lookups.Look([A], [0]),
     Lookups.Value([A, DOT, STAR], [y], [0, 1]), Lookups.Value([A, DOT, B], [x], [0, 1])]
  }

  function StarObject(x: Bytes, y: Bytes): seq<JsonGrammar.Member> {
    [JsonGrammar.Member([A], JsonGrammar.JObject([JsonGrammar.Member([STAR], JsonGrammar.JText(y)),
                                                  JsonGrammar.Member([B], JsonGrammar.JText(x))]))]
  }

  lemma {:induction false} StarCallIs(x: Bytes, y: Bytes)
    ensures Lookups.OfMatchJson(StarObject(x, y)) == StarCall(x, y)
  {
    var first := JsonGrammar.Member([STAR], JsonGrammar.JText(y));
    var second := JsonGrammar.Member([B], JsonGrammar.JText(x));
    var m, h := StarObject(x, y)[0], Lookups.EnterObject([], [A], []);
    assert [] + [A] == [A] && [A] + [DOT] == [A, DOT];
    var none: seq<nat> := [];
    assert none + [0] == [0] && none + [0, 1] == [0, 1];
    assert h == [] + [Lookups.Enter([A], [])] + [Lookups.Look([A], none + [0])];
    assert h == [Lookups.Enter([A], []), Lookups.Look([A], [0])];
    OneMember([], m, [], []);
    OneMember(h, first, [A, DOT], [0, 1]);
    MoreMembers(h, [first], second, [A, DOT], [0, 1]);
    assert [first] + [second] == [first, second];
    assert [A, DOT] + [STAR] == [A, DOT, STAR] && [A, DOT] + [B] == [A, DOT, B];
  }

  lemma {:induction false} StarGoesWrong(g: Setting, x: Bytes, y: Bytes)
    requires GoodSetting(g) && !g.direct && g.call == StarCall(x, y) && g.w.fold(x) != g.w.fold(y)
    ensures exists s :: Reaches(g, s) && Wrong(g, s, [NotBelowA(g.w, x)])
  {
    PathsBelowA();
    assert LateKept(g, [A, DOT, STAR], Stale(0)) == {2} && Referring(g.call, [A, DOT, STAR]) == {2, 3};
    FourCollected(g.call, {2});
    FourCollected(g.call, {2, 3});
    SomeGoWrong(g, x, Stale(0), [y], [y, x]);
  }

  /**
   * MatchJSON: {"a.*": [{"anythingBut": [x]}]} is followed for {"a": {"*": y, "b": x}}. The key "*"
   * makes the path "a.*", whose value is found although the wildcard path is not open.
   */
  lemma {:induction false} StarKeyGoesWrong(w: World, x: Bytes, y: Bytes)
    requires w.fold(x) != w.fold(y)
    ensures var g := Setting(w, Lookups.OfMatchJson(StarObject(x, y)), false);
            GoodSetting(g) && exists s :: Reaches(g, s) && Wrong(g, s, [NotBelowA(w, x)])
  {
    Lookups.OfMatchJsonGood(StarObject(x, y));
    StarCallIs(x, y);
    StarGoesWrong(Setting(w, Lookups.OfMatchJson(StarObject(x, y)), false), x, y);
  }
}
