/**
 * Exactly which conditions a call can follow although they do not hold,
 * because AddRule makes their paths known while the call gathers values.
 */
module LatePaths {
  import opened ByteStrings
  import opened Expressions
  import opened PathProtocol
  import opened Semantics
  import Lookups
  import Paths
  import Rules

  /**
   * A path becomes known before lookup t of the call. It is stale if it is a
   * wildcard path and not in the table the call holds, but in a later one.
   */
  datatype Late = Live(t: nat) | Stale(t: nat)

  /**
   * The values that are gathered for p if it becomes known so late: the value
   * of a property p itself from there on, and those below a wildcard path if
   * this is looked up from there on.
   */
  ghost predicate LateKeeps(g: Setting, p: Bytes, late: Late, i: nat) {
    && i < |g.call| && g.call[i].Value?
    && ((g.call[i].path == p && (g.direct || late.t <= i)) || (late.Live? && LooksSince(g, p, late.t, i)))
  }

  ghost predicate LooksSince(g: Setting, p: Bytes, t: nat, i: nat)
    requires i < |g.call|
  {
    exists x :: x in g.call[i].outer && t <= x < |g.call| && LooksFor(g.call[x], p)
  }

  ghost function LateKept(g: Setting, p: Bytes, late: Late): set<nat> {
    set i: nat | i < |g.call| && LateKeeps(g, p, late, i)
  }

  /** The condition holds for what is gathered. */
  ghost predicate LateHolds(g: Setting, c: NCond, late: Late) {
    CondHolds(g.w, c, Rules.FoldAll(g.w, Collect(g.call, LateKept(g, c.path, late), |g.call|)))
  }

  /** From lookup turn on, wildcard paths are stored in a later table than the one the call holds. */
  ghost predicate Fits(g: Setting, turn: nat, p: Bytes, late: Late) {
    late.t <= |g.call| && (Rules.WildBase(p).Some? ==> if late.Live? then late.t <= turn else turn <= late.t)
  }

  ghost predicate LateFor(g: Setting, turn: nat, conds: seq<NCond>, lates: seq<Late>) {
    && |lates| == |conds| && turn <= |g.call|
    && forall k :: 0 <= k < |conds| ==> Fits(g, turn, conds[k].path, lates[k])
  }

  ghost predicate AllHoldLate(g: Setting, conds: seq<NCond>, lates: seq<Late>) {
    |lates| == |conds| && forall k :: 0 <= k < |conds| ==> LateHolds(g, conds[k], lates[k])
  }

  ghost predicate CanHoldLate(g: Setting, conds: seq<NCond>) {
    exists turn, lates :: LateFor(g, turn, conds, lates) && AllHoldLate(g, conds, lates)
  }

  // ---------------------------------------------------- when the table is old

  /** The wildcard path p is in the table the call holds. */
  predicate InTable(s: State, p: Bytes)
    requires s.reader.Reading?
  {
    s.reader.table < |s.wilds| && exists b :: b in s.wilds[s.reader.table] && b != [] && p == Paths.WildPath(b)
  }

  /** a asks for p or for a prefix of it. */
  ghost predicate AsksFor(a: Lookups.Lookup, p: Bytes) {
    match a
    case Enter(path, _) => Paths.IsPrefix(path, p)
    case Look(_, _) => LooksFor(a, p)
    case Value(path, _, _) => path == p
  }

  /**
   * The table the call holds was current until lookup turn. A wildcard path
   * that became known before is in it; one that is in it is known afterwards.
   */
  ghost predicate Turned(g: Setting, s: State, turn: nat)
    requires s.reader.Reading?
  {
    var found := s.reader.found;
    && |found| <= |g.call| && turn <= |found| && (s.reader.table == |s.wilds| - 1 ==> turn == |found|)
    && (forall x, p :: turn <= x < |found| && InTable(s, p) && AsksFor(g.call[x], p) ==> found[x])
    && (forall x :: 0 <= x < turn && g.call[x].Value? && found[x] && Rules.WildBase(g.call[x].path).Some? ==>
          InTable(s, g.call[x].path))
    && (forall x, y :: 0 <= x < turn && x < y < |found| && g.call[x].Value? && found[x] ==>
                         LooksFor(g.call[y], g.call[x].path) ==> found[y])
  }

  ghost predicate TurnedSome(g: Setting, s: State) {
    s.reader.Reading? ==> exists turn :: Turned(g, s, turn)
  }

  /** A step of the writer does not change a table that is no longer current. */
  lemma {:induction false} OldTableKept(g: Setting, s: State, s': State)
    requires Inv(g, s) && Writes(s, s') && s.reader.Reading?
    ensures s'.reader == s.reader && s.reader.table < |s.wilds| <= |s'.wilds|
    ensures s.wilds[s.reader.table] <= s'.wilds[s.reader.table]
    ensures s.reader.table < |s.wilds| - 1 ==> s'.wilds[s.reader.table] == s.wilds[s.reader.table]
  {
    assert GoodFound(g, s);
  }

  lemma {:induction false} InTableMore(s: State, s': State, p: Bytes)
    requires s.reader.Reading? && s'.reader == s.reader && s.reader.table < |s.wilds| && s.reader.table < |s'.wilds|
    requires s.wilds[s.reader.table] <= s'.wilds[s.reader.table] && InTable(s, p)
    ensures InTable(s', p)
  {
    var b :| b in s.wilds[s.reader.table] && b != [] && p == Paths.WildPath(b);
    assert b in s'.wilds[s.reader.table];
  }

  lemma {:induction false} TurnedKept(g: Setting, s: State, s': State, turn: nat)
    requires s.reader.Reading? && s'.reader == s.reader && Turned(g, s, turn) && |s.wilds| <= |s'.wilds|
    requires forall p :: InTable(s, p) ==> InTable(s', p)
    requires s.reader.table < |s.wilds| - 1 ==> forall p :: InTable(s', p) ==> InTable(s, p)
    requires s.reader.table < |s.wilds|
    ensures Turned(g, s', turn)
  {
  }

  lemma {:induction false} WriteTurned(g: Setting, s: State, s': State, turn: nat)
    requires Inv(g, s) && Writes(s, s') && s.reader.Reading? && Turned(g, s, turn)
    ensures s'.reader.Reading? && Turned(g, s', turn)
  {
    OldTableKept(g, s, s');
    forall p | InTable(s, p) ensures InTable(s', p) {
      InTableMore(s, s', p);
    }
    if s.reader.table < |s.wilds| - 1 {
      forall p | InTable(s', p) ensures InTable(s, p) {
        InTableMore(s', s, p);
      }
    }
    TurnedKept(g, s, s', turn);
  }

  /** A path in an old table is known. */
  lemma {:induction false} OldTableAnswers(g: Setting, s: State, p: Bytes, a: Lookups.Lookup)
    requires Inv(g, s) && s.reader.Reading? && s.reader.table < |s.wilds| - 1 && InTable(s, p) && AsksFor(a, p)
    ensures Answer(s, s.reader.table, a)
  {
    var b :| b in s.wilds[s.reader.table] && b != [] && p == Paths.WildPath(b);
    assert GoodPath(s, p);
    if a.Look? {
      Paths.WildPathInjective(a.path, b);
    }
  }

  lemma {:induction false} LookAnswers(s: State, p: Bytes, a: Lookups.Lookup)
    requires s.reader.Reading? && InTable(s, p) && LooksFor(a, p)
    ensures Answer(s, s.reader.table, a)
  {
    var b :| b in s.wilds[s.reader.table] && b != [] && p == Paths.WildPath(b);
    Paths.WildPathInjective(a.path, b);
  }

  lemma {:induction false} KnownInTable(g: Setting, s: State, p: Bytes)
    requires Inv(g, s) && s.reader.Reading? && s.reader.table == |s.wilds| - 1 && p in s.paths
    requires Rules.WildBase(p).Some?
    ensures InTable(s, p)
  {
    Paths.WildBaseOf(p);
    assert GoodPath(s, p);
  }

  /** The next lookup of a call whose table is current, or no longer is. */
  lemma {:induction false} LookUpTurned(g: Setting, s: State, s': State, turn: nat)
    requires Inv(g, s) && LookUp(g, s, s') && Turned(g, s, turn)
    ensures Turned(g, s', if s.reader.table == |s.wilds| - 1 then turn + 1 else turn)
  {
    var found, more, n := s.reader.found, s'.reader.found, |s.reader.found|;
    var turn' := if s.reader.table == |s.wilds| - 1 then turn + 1 else turn;
    assert s.reader.table < |s.wilds|;
    forall p ensures InTable(s', p) <==> InTable(s, p) {
    }
    forall x, p | turn' <= x < |more| && InTable(s', p) && AsksFor(g.call[x], p) ensures more[x] {
      if x == n {
        OldTableAnswers(g, s, p, g.call[n]);
      }
    }
    forall x | 0 <= x < turn' && g.call[x].Value? && more[x] && Rules.WildBase(g.call[x].path).Some?
      ensures InTable(s', g.call[x].path)
    {
      if x == n {
        KnownInTable(g, s, g.call[n].path);
      }
    }
    forall x, y | 0 <= x < turn' && x < y < |more| && g.call[x].Value? && more[x] && LooksFor(g.call[y], g.call[x].path)
      ensures more[y]
    {
      if y == n {
        Paths.WildBaseOf(g.call[x].path);
        LookAnswers(s, g.call[x].path, g.call[n]);
      }
    }
  }

  lemma {:induction false} TurnedStep(g: Setting, s: State, s': State)
    requires Inv(g, s) && Next(g, s, s') && TurnedSome(g, s)
    ensures TurnedSome(g, s')
  {
    if Writes(s, s') {
      if s.reader.Reading? {
        var turn :| Turned(g, s, turn);
        WriteTurned(g, s, s', turn);
      }
    } else if LookUp(g, s, s') {
      var turn :| Turned(g, s, turn);
      LookUpTurned(g, s, s', turn);
    } else if LoadWilds(s, s') {
      assert Turned(g, s', 0);
    }
  }

  lemma {:induction false} TurnedRun(g: Setting, run: seq<State>, i: nat)
    requires IsRun(g, run) && i < |run|
    ensures Inv(g, run[i]) && TurnedSome(g, run[i])
  {
    if i == 0 {
      StartInv(g);
    } else {
      TurnedRun(g, run, i - 1);
      assert Next(g, run[i - 1], run[i - 1 + 1]);
      NextKeeps(g, run[i - 1], run[i]);
      TurnedStep(g, run[i - 1], run[i]);
    }
  }

  // ------------------------------------------------- from where on p is found

  /** A lookup on which it depends what is gathered for p. */
  predicate Asks(g: Setting, p: Bytes, live: bool, x: nat) {
    x < |g.call| && ((live && LooksFor(g.call[x], p)) || (!g.direct && g.call[x].Value? && g.call[x].path == p))
  }

  /** It makes the call gather for p. */
  ghost predicate Hits(g: Setting, found: seq<bool>, p: Bytes, x: nat) {
    && x < |g.call| && x < |found|
    && if g.call[x].Look? then found[x] && Recorded(g, found, x) else Keeps(g, found, p, x)
  }

  /** A state in which a call has gathered its values, and the lookup from which on its table was old. */
  ghost predicate AllRead(g: Setting, s: State, turn: nat) {
    GoodSetting(g) && Inv(g, s) && Ready(g, s) && Turned(g, s, turn)
  }

  /** p is no wildcard path, or in the table the call holds. */
  predicate IsLive(s: State, p: Bytes)
    requires s.reader.Reading?
  {
    Rules.WildBase(p).None? || InTable(s, p)
  }

  /** The lookup that found p. */
  lemma {:induction false} SourceOf(g: Setting, found: seq<bool>, p: Bytes, live: bool, x: nat) returns (z: nat)
    requires GoodSetting(g) && |found| == |g.call| && Asks(g, p, live, x) && Hits(g, found, p, x)
    ensures z <= x && found[z] && (LooksFor(g.call[z], p) || (g.call[z].Value? && g.call[z].path == p && z == x))
  {
    z := x;
    if !g.call[x].Look? && !found[x] {
      z :| z in g.call[x].outer && z < |g.call| && z < |found| && LooksFor(g.call[z], p) && found[z];
      Lookups.OuterOf(g.call, x, z);
    }
  }

  /** An object around both lookups is recorded. */
  lemma {:induction false} EnteredBefore(g: Setting, found: seq<bool>, x: nat, y: nat, e: nat)
    requires GoodSetting(g) && |found| == |g.call| && Recorded(g, found, x) && e < x < y < |g.call|
    requires e in g.call[y].outer && g.call[e].Enter?
    ensures found[e] || Below(g, found, e)
  {
    Lookups.StaysOpen(g.call, e, y, x);
  }

  /** What has been found stays there. */
  ghost predicate Stays(g: Setting, found: seq<bool>) {
    && GoodSetting(g) && |found| == |g.call|
    && forall x, y :: 0 <= x < y < |found| && found[x] && Implies(g.call[x], g.call[y]) ==> found[y]
  }

  lemma {:induction false} ReadStays(g: Setting, s: State, turn: nat)
    requires AllRead(g, s, turn)
    ensures Stays(g, s.reader.found)
  {
    assert GoodFound(g, s);
  }

  /** z found p. */
  predicate Finds(g: Setting, found: seq<bool>, p: Bytes, z: nat) {
    && z < |g.call| && z < |found| && found[z]
    && (LooksFor(g.call[z], p) || (g.call[z].Value? && g.call[z].path == p))
  }

  /** An object that is entered after p has been found at z. */
  lemma {:induction false} EnteredAfter(g: Setting, found: seq<bool>, p: Bytes, live: bool, z: nat, y: nat, e: nat)
    requires Stays(g, found) && Asks(g, p, live, y) && e in g.call[y].outer && z < e < |g.call| && g.call[e].Enter?
    requires Finds(g, found, p, z)
    ensures found[e]
  {
    Lookups.OuterOf(g.call, y, e);
    EnclosingPrefix(g.call[e], g.call[y], p);
    assert Implies(g.call[z], g.call[e]);
  }

  /** Once p has been found, all objects around later lookups for it are recorded. */
  lemma {:induction false} StaysRecorded(g: Setting, found: seq<bool>, p: Bytes, live: bool, x: nat, y: nat, z: nat)
    requires Stays(g, found) && Asks(g, p, live, y) && z <= x < y && Recorded(g, found, x) && !g.call[x].Enter?
    requires Finds(g, found, p, z)
    ensures Recorded(g, found, y)
  {
    forall e | e in g.call[y].outer && e < |g.call| && g.call[e].Enter?
      ensures (e < |found| && found[e]) || Below(g, found, e)
    {
      if e < x {
        EnteredBefore(g, found, x, y, e);
      } else {
        EnteredAfter(g, found, p, live, z, y, e);
      }
    }
  }

  /** Nothing is looked up inside of itself. */
  lemma {:induction false} LookedOnce(g: Setting, p: Bytes, x: nat, z: nat, y: nat)
    requires GoodSetting(g) && y < |g.call| && x in g.call[y].outer && z < y && x < |g.call|
    requires LooksFor(g.call[x], p) && LooksFor(g.call[z], p)
    ensures z <= x
  {
    if x < z {
      Lookups.StaysOpen(g.call, x, y, z);
      Lookups.OuterOf(g.call, z, x);
      Paths.WildPathInjective(g.call[x].path, g.call[z].path);
      assert false;
    }
  }

  lemma {:induction false} StaysFoundLook(g: Setting, s: State, turn: nat, p: Bytes, x: nat, y: nat)
    requires AllRead(g, s, turn) && IsLive(s, p) && x < y < |g.call| && LooksFor(g.call[y], p) && s.reader.found[x]
    requires LooksFor(g.call[x], p) || (g.call[x].Value? && g.call[x].path == p)
    ensures s.reader.found[y]
  {
    if LooksFor(g.call[x], p) {
      Paths.WildPathInjective(g.call[x].path, g.call[y].path);
      assert Implies(g.call[x], g.call[y]);
    } else if turn <= x {
      Paths.WildBaseOf(p);
      assert InTable(s, p) && AsksFor(g.call[y], p);
    }
  }

  lemma {:induction false} StaysFoundValue(g: Setting, s: State, turn: nat, p: Bytes, x: nat, y: nat)
    requires AllRead(g, s, turn) && x < y < |g.call| && g.call[y].Value? && g.call[y].path == p && s.reader.found[x]
    requires LooksFor(g.call[x], p) || (g.call[x].Value? && g.call[x].path == p)
    ensures s.reader.found[y] || BelowPath(g, s.reader.found, y, p)
  {
    if g.call[x].Value? {
      assert Implies(g.call[x], g.call[y]);
    } else {
      var b := g.call[x].path;
      assert p[..|b|] == b;
      var z := Lookups.DotLooked(g.call, y, b);
      LookedOnce(g, p, z, x, y);
      if x < z {
        assert Implies(g.call[x], g.call[z]);
      }
      assert LooksFor(g.call[z], p) && s.reader.found[z];
    }
  }

  /** Once p has been found, it is found by all later lookups for it. */
  lemma {:induction false} StaysHit(g: Setting, s: State, turn: nat, p: Bytes, live: bool, x: nat, y: nat)
    requires AllRead(g, s, turn) && (live ==> IsLive(s, p)) && Asks(g, p, live, x) && Asks(g, p, live, y) && x < y
    requires Hits(g, s.reader.found, p, x)
    ensures Hits(g, s.reader.found, p, y)
  {
    ReadStays(g, s, turn);
    var z := SourceOf(g, s.reader.found, p, live, x);
    StaysRecorded(g, s.reader.found, p, live, x, y, z);
    if g.call[y].Look? {
      StaysFoundLook(g, s, turn, p, z, y);
    } else {
      StaysFoundValue(g, s, turn, p, z, y);
    }
  }

  ghost predicate HitsStay(g: Setting, found: seq<bool>, p: Bytes, live: bool) {
    forall x: nat, y: nat :: Asks(g, p, live, x) && Asks(g, p, live, y) && x <= y && Hits(g, found, p, x) ==>
                               Hits(g, found, p, y)
  }

  lemma {:induction false} ReadHitsStay(g: Setting, s: State, turn: nat, p: Bytes, live: bool)
    requires AllRead(g, s, turn) && (live ==> IsLive(s, p))
    ensures HitsStay(g, s.reader.found, p, live)
  {
    forall x: nat, y: nat | Asks(g, p, live, x) && Asks(g, p, live, y) && x <= y && Hits(g, s.reader.found, p, x)
      ensures Hits(g, s.reader.found, p, y)
    {
      if x < y {
        StaysHit(g, s, turn, p, live, x, y);
      }
    }
  }

  // ------------------------------------------------------- how late a path is

  /** One more than the last of the first n lookups for p that did not find it. */
  ghost function AfterMisses(g: Setting, found: seq<bool>, p: Bytes, live: bool, n: nat): (t: nat)
    ensures t <= n
  {
    if n == 0 then 0
    else if Asks(g, p, live, n - 1) && !Hits(g, found, p, n - 1) then n
    else AfterMisses(g, found, p, live, n - 1)
  }

  lemma {:induction false} AfterMissesIs(g: Setting, found: seq<bool>, p: Bytes, live: bool, n: nat)
    ensures var t := AfterMisses(g, found, p, live, n);
            && (forall x :: t <= x < n && Asks(g, p, live, x) ==> Hits(g, found, p, x))
            && (t > 0 ==> Asks(g, p, live, t - 1) && !Hits(g, found, p, t - 1))
  {
    if n > 0 && !(Asks(g, p, live, n - 1) && !Hits(g, found, p, n - 1)) {
      AfterMissesIs(g, found, p, live, n - 1);
    }
  }

  /** p is found exactly by the lookups from t on. */
  ghost predicate FoundFrom(g: Setting, found: seq<bool>, p: Bytes, live: bool, t: nat) {
    forall x :: Asks(g, p, live, x) ==> (Hits(g, found, p, x) <==> t <= x)
  }

  lemma {:induction false} FoundAfterLast(g: Setting, found: seq<bool>, p: Bytes, live: bool, t: nat)
    requires HitsStay(g, found, p, live)
    requires forall x :: t <= x < |g.call| && Asks(g, p, live, x) ==> Hits(g, found, p, x)
    requires t > 0 ==> Asks(g, p, live, t - 1) && !Hits(g, found, p, t - 1)
    ensures FoundFrom(g, found, p, live, t)
  {
  }

  lemma {:induction false} FoundAfterMisses(g: Setting, s: State, turn: nat, p: Bytes, live: bool)
    requires AllRead(g, s, turn) && (live ==> IsLive(s, p))
    ensures FoundFrom(g, s.reader.found, p, live, AfterMisses(g, s.reader.found, p, live, |g.call|))
  {
    AfterMissesIs(g, s.reader.found, p, live, |g.call|);
    ReadHitsStay(g, s, turn, p, live);
    FoundAfterLast(g, s.reader.found, p, live, AfterMisses(g, s.reader.found, p, live, |g.call|));
  }

  /** What is recorded is inside of what is recorded. */
  lemma {:induction false} RecordedOuter(g: Setting, found: seq<bool>, x: nat, i: nat)
    requires GoodSetting(g) && Recorded(g, found, i) && x in g.call[i].outer && x < |g.call|
    ensures Recorded(g, found, x)
  {
    Lookups.OuterOf(g.call, i, x);
  }

  lemma {:induction false} BelowSince(g: Setting, s: State, turn: nat, p: Bytes, t: nat, i: nat)
    requires AllRead(g, s, turn) && FoundFrom(g, s.reader.found, p, true, t) && i < |g.call|
    ensures Recorded(g, s.reader.found, i) && BelowPath(g, s.reader.found, i, p) <==> LooksSince(g, p, t, i)
  {
    var found := s.reader.found;
    if Recorded(g, found, i) && BelowPath(g, found, i, p) {
      var x :| x in g.call[i].outer && x < |g.call| && LooksFor(g.call[x], p) && found[x];
      RecordedOuter(g, found, x, i);
      assert Asks(g, p, true, x) && Hits(g, found, p, x);
    }
    if LooksSince(g, p, t, i) {
      var x :| x in g.call[i].outer && t <= x < |g.call| && LooksFor(g.call[x], p);
      assert Asks(g, p, true, x) && Hits(g, found, p, x);
      RecordedInside(g, found, x, i);
    }
  }

  /** A path that is in the table, or no wildcard path. */
  lemma {:induction false} LiveKept(g: Setting, s: State, turn: nat, p: Bytes, t: nat)
    requires AllRead(g, s, turn) && FoundFrom(g, s.reader.found, p, true, t)
    ensures Kept(g, s.reader.found, p) == LateKept(g, p, Live(t))
  {
    var found := s.reader.found;
    forall i: nat | i < |g.call| && g.call[i].Value?
      ensures Keeps(g, found, p, i) <==> LateKeeps(g, p, Live(t), i)
    {
      BelowSince(g, s, turn, p, t, i);
      if g.call[i].path == p {
        OwnKept(g, s, turn, p, true, t, i);
        if x :| x in g.call[i].outer && t <= x < |g.call| && LooksFor(g.call[x], p) {
          Lookups.OuterOf(g.call, i, x);
        }
      }
    }
    assert forall i :: i in Kept(g, found, p) <==> i in LateKept(g, p, Live(t));
  }

  lemma {:induction false} OwnKept(g: Setting, s: State, turn: nat, p: Bytes, live: bool, t: nat, i: nat)
    requires AllRead(g, s, turn) && FoundFrom(g, s.reader.found, p, live, t)
    requires i < |g.call| && g.call[i].Value? && g.call[i].path == p
    ensures Keeps(g, s.reader.found, p, i) <==> g.direct || t <= i
  {
    if g.direct {
      assert forall a :: a in g.call ==> !a.Enter?;
    } else {
      assert Asks(g, p, live, i);
    }
  }

  lemma {:induction false} BelowInTable(g: Setting, s: State, p: Bytes, i: nat)
    requires GoodSetting(g) && Inv(g, s) && Ready(g, s) && BelowPath(g, s.reader.found, i, p)
    ensures InTable(s, p)
  {
    var x :| x in g.call[i].outer && x < |g.call| && LooksFor(g.call[x], p) && s.reader.found[x];
    assert Answer(s, s.reader.table, g.call[x]);
  }

  lemma {:induction false} NotBelow(g: Setting, s: State, p: Bytes, i: nat)
    requires GoodSetting(g) && Inv(g, s) && Ready(g, s) && !IsLive(s, p)
    ensures !BelowPath(g, s.reader.found, i, p)
  {
    if BelowPath(g, s.reader.found, i, p) {
      BelowInTable(g, s, p, i);
    }
  }

  /** A wildcard path that is not in the table. */
  lemma {:induction false} StaleKept(g: Setting, s: State, turn: nat, p: Bytes, t: nat)
    requires AllRead(g, s, turn) && !IsLive(s, p) && FoundFrom(g, s.reader.found, p, false, t)
    ensures Kept(g, s.reader.found, p) == LateKept(g, p, Stale(t))
  {
    var found := s.reader.found;
    forall i: nat | i < |g.call| && g.call[i].Value?
      ensures Keeps(g, found, p, i) <==> LateKeeps(g, p, Stale(t), i)
    {
      NotBelow(g, s, p, i);
      if g.call[i].path == p {
        OwnKept(g, s, turn, p, false, t, i);
      }
    }
    assert forall i :: i in Kept(g, found, p) <==> i in LateKept(g, p, Stale(t));
  }

  // -------------------------------------------------- several paths at a time

  /** A wildcard path that was stored in a later table is found later. */
  lemma {:induction false} StaleAfterTurn(g: Setting, s: State, turn: nat, p: Bytes, x: nat)
    requires AllRead(g, s, turn) && !IsLive(s, p) && Asks(g, p, false, x) && Hits(g, s.reader.found, p, x)
    ensures turn <= x
  {
    NotBelow(g, s, p, x);
    assert s.reader.found[x];
  }

  /** If a path in the table is not found after it was old, an object around is not recorded. */
  lemma {:induction false} MissedInside(g: Setting, s: State, turn: nat, p: Bytes, y: nat) returns (e: nat)
    requires AllRead(g, s, turn) && InTable(s, p) && turn <= y && Asks(g, p, true, y)
    requires !Hits(g, s.reader.found, p, y)
    ensures e in g.call[y].outer && e < turn && e < |g.call| && g.call[e].Enter?
    ensures !s.reader.found[e] && !Below(g, s.reader.found, e)
  {
    var found := s.reader.found;
    assert AsksFor(g.call[y], p) && found[y];
    e :| e in g.call[y].outer && e < |g.call| && g.call[e].Enter? && !found[e] && !Below(g, found, e);
    Lookups.OuterOf(g.call, y, e);
    EnclosingPrefix(g.call[e], g.call[y], p);
    assert AsksFor(g.call[e], p);
  }

  /** In an object that is not recorded nothing is found. */
  lemma {:induction false} NotHitInside(g: Setting, found: seq<bool>, e: nat, y: nat, q: Bytes, x: nat)
    requires GoodSetting(g) && y < |g.call| && e in g.call[y].outer && e < x < y && g.call[e].Enter?
    requires |found| == |g.call| && !found[e] && !Below(g, found, e)
    ensures !Hits(g, found, q, x)
  {
    Lookups.StaysOpen(g.call, e, y, x);
  }

  lemma {:induction false} NotSame(g: Setting, s: State, p: Bytes, y: nat, q: Bytes, x: nat)
    requires s.reader.Reading? && InTable(s, p) && Asks(g, p, true, y) && !IsLive(s, q) && Asks(g, q, false, x)
    ensures x != y
  {
  }

  /** Such an object ends before a path that was stored in a later table is found. */
  lemma {:induction false} StaleAfterMissed(g: Setting, s: State, turn: nat, p: Bytes, y: nat, q: Bytes, x: nat)
    requires AllRead(g, s, turn) && InTable(s, p) && turn <= y && Asks(g, p, true, y)
    requires !Hits(g, s.reader.found, p, y)
    requires !IsLive(s, q) && Asks(g, q, false, x) && turn <= x <= y
    ensures !Hits(g, s.reader.found, q, x)
  {
    NotSame(g, s, p, y, q, x);
    var e := MissedInside(g, s, turn, p, y);
    NotHitInside(g, s.reader.found, e, y, q, x);
  }

  /** The last miss of a path in the table, or the turn. */
  ghost function LastMiss(g: Setting, s: State, turn: nat, conds: seq<NCond>): (t: nat)
    requires s.reader.Reading?
    ensures turn <= t && (turn <= |g.call| ==> t <= |g.call|)
  {
    if conds == [] then turn
    else
      var c, t := conds[0], LastMiss(g, s, turn, conds[1..]);
      var m := AfterMisses(g, s.reader.found, c.path, true, |g.call|);
      if InTable(s, c.path) && m > t then m else t
  }

  lemma {:induction false} LastMissIs(g: Setting, s: State, turn: nat, conds: seq<NCond>)
    requires s.reader.Reading?
    ensures var t := LastMiss(g, s, turn, conds);
            && (forall k :: 0 <= k < |conds| && InTable(s, conds[k].path) ==>
                  AfterMisses(g, s.reader.found, conds[k].path, true, |g.call|) <= t)
            && (t == turn || exists c :: c in conds && InTable(s, c.path) && t > turn &&
                                         t == AfterMisses(g, s.reader.found, c.path, true, |g.call|))
  {
    if conds != [] {
      LastMissIs(g, s, turn, conds[1..]);
      forall k | 0 <= k < |conds| && InTable(s, conds[k].path)
        ensures AfterMisses(g, s.reader.found, conds[k].path, true, |g.call|) <= LastMiss(g, s, turn, conds)
      {
        assert k > 0 ==> conds[k] == conds[1..][k - 1];
      }
    }
  }

  lemma {:induction false} LastMissed(g: Setting, s: State, turn: nat, conds: seq<NCond>) returns (p: Bytes)
    requires s.reader.Reading? && LastMiss(g, s, turn, conds) > turn
    ensures var y := LastMiss(g, s, turn, conds) - 1;
            InTable(s, p) && Asks(g, p, true, y) && !Hits(g, s.reader.found, p, y)
  {
    LastMissIs(g, s, turn, conds);
    var t := LastMiss(g, s, turn, conds);
    var c :| c in conds && InTable(s, c.path) && t == AfterMisses(g, s.reader.found, c.path, true, |g.call|);
    p := c.path;
    AfterMissesIs(g, s.reader.found, p, true, |g.call|);
  }

  lemma {:induction false} StaleAfterLast(g: Setting, s: State, turn: nat, conds: seq<NCond>, q: Bytes, x: nat)
    requires AllRead(g, s, turn) && !IsLive(s, q) && Asks(g, q, false, x) && Hits(g, s.reader.found, q, x)
    ensures LastMiss(g, s, turn, conds) <= x
  {
    var t := LastMiss(g, s, turn, conds);
    StaleAfterTurn(g, s, turn, q, x);
    if t > turn {
      var p := LastMissed(g, s, turn, conds);
      if x <= t - 1 {
        StaleAfterMissed(g, s, turn, p, t - 1, q, x);
      }
    }
  }

  /** How late the call found p. */
  ghost function LateOf(g: Setting, s: State, last: nat, p: Bytes): Late
    requires s.reader.Reading?
  {
    var live := IsLive(s, p);
    var t := AfterMisses(g, s.reader.found, p, live, |g.call|);
    if live then Live(t) else Stale(if t < last then last else t)
  }

  /** Exactly the values for this lateness were gathered. */
  lemma {:induction false} LateGathered(g: Setting, s: State, turn: nat, conds: seq<NCond>, p: Bytes)
    requires AllRead(g, s, turn)
    ensures Kept(g, s.reader.found, p) == LateKept(g, p, LateOf(g, s, LastMiss(g, s, turn, conds), p))
  {
    var found, live := s.reader.found, IsLive(s, p);
    var t := AfterMisses(g, found, p, live, |g.call|);
    FoundAfterMisses(g, s, turn, p, live);
    if live {
      LiveKept(g, s, turn, p, t);
    } else {
      var last := LastMiss(g, s, turn, conds);
      var u := if t < last then last else t;
      forall x | Asks(g, p, false, x) ensures Hits(g, found, p, x) <==> u <= x {
        if Hits(g, found, p, x) {
          StaleAfterLast(g, s, turn, conds, p, x);
        }
      }
      StaleKept(g, s, turn, p, u);
    }
  }

  lemma {:induction false} LateFits(g: Setting, s: State, turn: nat, conds: seq<NCond>, k: nat)
    requires AllRead(g, s, turn) && k < |conds|
    ensures var last := LastMiss(g, s, turn, conds); Fits(g, last, conds[k].path, LateOf(g, s, last, conds[k].path))
  {
    LastMissIs(g, s, turn, conds);
  }

  /**
   * Whatever a call follows, however late it was added, each of its conditions
   * holds for the values from where its path was found on.
   */
  lemma {:induction false} LateExact(g: Setting, s: State, conds: seq<NCond>) returns (turn: nat, lates: seq<Late>)
    requires GoodSetting(g) && Reaches(g, s) && Ready(g, s)
    ensures LateFor(g, turn, conds, lates)
    ensures forall k :: 0 <= k < |conds| ==>
              (CondFollowed(g, s, conds[k]) <==>
               (conds[k].expr.Absent? ==> s.reader.absent) && LateHolds(g, conds[k], lates[k]))
  {
    var run :| IsRun(g, run) && run[|run| - 1] == s;
    TurnedRun(g, run, |run| - 1);
    var t :| Turned(g, s, t);
    turn := LastMiss(g, s, t, conds);
    lates := seq(|conds|, k requires 0 <= k < |conds| => LateOf(g, s, turn, conds[k].path));
    forall k | 0 <= k < |conds|
      ensures Fits(g, turn, conds[k].path, lates[k])
      ensures Kept(g, s.reader.found, conds[k].path) == LateKept(g, conds[k].path, lates[k])
    {
      LateFits(g, s, t, conds, k);
      LateGathered(g, s, t, conds, conds[k].path);
    }
  }
}
