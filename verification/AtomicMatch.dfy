/**
 * A whole Match call while ReplaceRule runs: the steps of `ReplaceProtocol` and
 * of `PathProtocol` together, with the rules as they were given. The call
 * returns what naive evaluation of the rules at one moment returns.
 */
module AtomicMatch {
  import opened ByteStrings
  import opened Normalize
  import opened RuleTables
  import opened Semantics
  import NormalizeCorrect
  import P = PathProtocol
  import R = ReplaceProtocol
  import Rules

  /** Identifiers, numbered in any way. */
  type Id = nat

  /** owner and given hold the identifier of every published number, and the rules that were given for it. */
  datatype Both = Both(r: R.State, p: P.State, owner: seq<Id>, given: seq<seq<Rules.ConditionSet>>)

  const START := Both(R.START, P.START, [], [])

  // ------------------------------------------------------------------- steps

  /** AddRule for a new identifier. */
  ghost predicate AddNew(g: P.Setting, b: Both, b': Both) {
    exists id, rule ::
      && NormalizeRule(g.w, rule).Some? && id !in b.owner && R.Add(b.r, b'.r)
      && P.StartAddOf(b.p, b'.p, |b.p.numbers|, NormalizeRule(g.w, rule).value)
      && b'.owner == b.owner + [id] && b'.given == b.given + [[rule]]
  }

  /** AddRule for the number n of a present identifier. */
  ghost predicate AddMore(g: P.Setting, b: Both, b': Both) {
    exists n: nat, rule :: AddMoreOf(g, b, b', n, rule)
  }

  ghost predicate AddMoreOf(g: P.Setting, b: Both, b': Both, n: nat, rule: Rules.ConditionSet) {
    && NormalizeRule(g.w, rule).Some? && n < |b.p.numbers| && n < |b.given|
    && b.r.writer.Idle? && b.r.arrays != [] && R.UntilAt(R.Current(b.r), n) == 0
    && P.StartAddOf(b.p, b'.p, n, NormalizeRule(g.w, rule).value)
    && b' == b.(p := b'.p, given := b.given[n := b.given[n] + [rule]])
  }

  /** What ReplaceRule does before it publishes the number of the new rule. */
  ghost predicate Prepare(b: Both, b': Both) {
    && b.p.writer.Idle? && b' == b.(r := b'.r)
    && (R.Plan(b.r, b'.r) || R.Size(b.r, b'.r) || R.StoreSpan(b.r, b'.r) || R.StoreOrder(b.r, b'.r))
  }

  ghost predicate List(g: P.Setting, b: Both, b': Both) {
    exists rule :: ListOf(g, b, b', rule)
  }

  ghost predicate ListOf(g: P.Setting, b: Both, b': Both, rule: Rules.ConditionSet) {
    && NormalizeRule(g.w, rule).Some? && R.List(b.r, b'.r) && b.r.writer.job.old_ < |b.owner|
    && P.StartReplaceOf(b.p, b'.p, NormalizeRule(g.w, rule).value)
    && b'.owner == b.owner + [b.owner[b.r.writer.job.old_]] && b'.given == b.given + [[rule]]
  }

  /** The condition sets are inserted, by either of them. */
  ghost predicate InsertSets(b: Both, b': Both) {
    (P.AddsPath(b.p, b'.p) || P.Complete(b.p, b'.p)) && b' == b.(p := b'.p)
  }

  ghost predicate FinishAdd(b: Both, b': Both) {
    P.Finish(b.p, b'.p) && b.p.writer.job.version.None? && b' == b.(p := b'.p)
  }

  ghost predicate Inserted(b: Both) {
    b.p.writer.Adding? && b.p.writer.k == |b.p.writer.job.sets|
  }

  /** What ReplaceRule does between inserting the condition sets and publishing the version. */
  ghost predicate Retire(b: Both, b': Both) {
    && Inserted(b) && b' == b.(r := b'.r)
    && (R.Insert(b.r, b'.r) || R.StoreOldSpan(b.r, b'.r) || R.StoreOldOrder(b.r, b'.r))
  }

  ghost predicate Publish(b: Both, b': Both) {
    R.Publish(b.r, b'.r) && P.Finish(b.p, b'.p) && b' == b.(r := b'.r, p := b'.p)
  }

  ghost predicate Begin(b: Both, b': Both) {
    R.LoadVersion(b.r, b'.r) && P.LoadVersion(b.p, b'.p) && b' == b.(r := b'.r, p := b'.p)
  }

  ghost predicate LoadIds(b: Both, b': Both) {
    R.LoadIds(b.r, b'.r) && P.LoadIds(b.p, b'.p) && b' == b.(r := b'.r, p := b'.p)
  }

  ghost predicate ReadMore(g: P.Setting, b: Both, b': Both) {
    || (R.LoadMeta(b.r, b'.r) && b' == b.(r := b'.r))
    || ((P.LoadAbsent(b.p, b'.p) || P.LoadWilds(b.p, b'.p) || P.LookUp(g, b.p, b'.p)) && b' == b.(p := b'.p))
  }

  ghost predicate Leave(b: Both, b': Both) {
    R.Leave(b.r, b'.r) && P.Leave(b.p, b'.p) && b' == b.(r := b'.r, p := b'.p)
  }

  ghost predicate Writes(g: P.Setting, b: Both, b': Both) {
    || AddNew(g, b, b') || AddMore(g, b, b') || Prepare(b, b') || List(g, b, b') || InsertSets(b, b')
    || FinishAdd(b, b') || Retire(b, b') || Publish(b, b')
  }

  ghost predicate Next(g: P.Setting, b: Both, b': Both) {
    Writes(g, b, b') || Begin(b, b') || LoadIds(b, b') || ReadMore(g, b, b') || Leave(b, b')
  }

  // --------------------------------------------------------------- invariant

  /** Both have published the same numbers and the same version. */
  ghost predicate SameNumbers(b: Both) {
    && |b.r.chain| == |b.p.numbers| == |b.owner| == |b.given| && b.r.version == b.p.version && b.r.arrays != []
    && (forall n :: 0 <= n < |b.r.chain| ==> R.FromAt(R.Current(b.r), n) == b.p.numbers[n].from)
    && forall n :: 0 <= n < |b.r.chain| ==> b.r.chain[n] < |b.owner| && b.owner[n] == b.owner[b.r.chain[n]]
  }

  ghost predicate SameWriter(b: Both) {
    match b.r.writer
    case Idle => b.p.writer.Idle? || b.p.writer.job.version.None?
    case Planned(_) => b.p.writer.Idle?
    case Sized(_) => b.p.writer.Idle?
    case SpanSet(_) => b.p.writer.Idle?
    case OrderSet(_) => b.p.writer.Idle?
    case Listed(_) => b.p.writer.Adding? && b.p.writer.job.version.Some?
    case _ => Inserted(b) && b.p.writer.job.version.Some?
  }

  ghost predicate SameReader(b: Both) {
    match b.r.reader
    case Outside => b.p.reader.Outside?
    case HasVersion(v) => b.p.reader.HasVersion? && b.p.reader.version == v
    case HasLimit(v, l) =>
      (b.p.reader.HasLimit? || b.p.reader.HasAbsent? || b.p.reader.Reading?) && b.p.reader.version == v &&
      b.p.reader.limit == l
    case Ready(v, l, _) =>
      (b.p.reader.HasLimit? || b.p.reader.HasAbsent? || b.p.reader.Reading?) && b.p.reader.version == v &&
      b.p.reader.limit == l
  }

  ghost predicate IsSetOf(w: World, rule: Rules.ConditionSet, conds: seq<NCond>) {
    NormalizeRule(w, rule).Some? && conds in NormalizeRule(w, rule).value
  }

  /** The condition set still has to be inserted under n. */
  ghost predicate ToInsert(s: P.State, n: nat, conds: seq<NCond>) {
    s.writer.Adding? && s.writer.job.num == n && s.writer.k <= |s.writer.job.sets| &&
    conds in s.writer.job.sets[s.writer.k..]
  }

  ghost predicate GivenOnly(g: P.Setting, b: Both) {
    && (forall r :: r in b.p.rules ==> r.num < |b.given| && GivenSet(g, b, r.num, r.conds))
    && (b.p.writer.Adding? && b.p.writer.job.num < |b.given| ==>
          forall conds :: conds in b.p.writer.job.sets ==> GivenSet(g, b, b.p.writer.job.num, conds))
  }

  ghost predicate GivenSet(g: P.Setting, b: Both, n: nat, conds: seq<NCond>)
    requires n < |b.given|
  {
    exists rule :: rule in b.given[n] && IsSetOf(g.w, rule, conds)
  }

  ghost predicate AllInserted(g: P.Setting, b: Both) {
    forall n: nat, rule, conds :: n < |b.given| && rule in b.given[n] && IsSetOf(g.w, rule, conds) ==>
                                    P.Rule(n, conds) in b.p.rules || ToInsert(b.p, n, conds)
  }

  ghost predicate AllValid(g: P.Setting, b: Both) {
    forall n: nat, rule :: n < |b.given| && rule in b.given[n] ==> NormalizeRule(g.w, rule).Some?
  }

  ghost predicate Inv(g: P.Setting, b: Both) {
    && R.Inv(b.r) && P.Inv(g, b.p) && SameNumbers(b) && SameWriter(b) && SameReader(b)
    && GivenOnly(g, b) && AllInserted(g, b) && AllValid(g, b)
  }

  lemma {:induction false} StartInv(g: P.Setting)
    ensures Inv(g, START)
  {
    R.StartInv();
    P.StartInv(g);
  }

  // ----------------------------------------------------- every step keeps it

  lemma {:induction false} FromStays(s: R.State, s': R.State, n: nat)
    requires R.Inv(s) && R.Next(s, s') && n < |s.chain|
    ensures s'.arrays != [] && n < |s'.chain| && s'.chain[n] == s.chain[n]
    ensures R.FromAt(R.Current(s'), n) == R.FromAt(R.Current(s), n)
  {
    if R.StoreSpan(s, s') {
      R.SetSpanAt(R.Current(s), s.writer.job.num, R.Span(s.writer.job.v, 0), n);
    } else if R.StoreOldSpan(s, s') {
      R.OldSpanAt(s, s', n);
    } else if R.StoreOrder(s, s') {
      R.SetOrderAt(R.Current(s), s.writer.job.num, s.writer.job.order, n);
    } else if R.StoreOldOrder(s, s') {
      R.SetOrderAt(R.Current(s), s.writer.job.old_, s.writer.job.order, n);
    } else if R.Size(s, s') && s.writer.job.num >= |R.Current(s).spans| {
      var size: nat :| R.SizeTo(s, s', size);
      R.GrownAt(R.Current(s), size, n);
    }
  }

  lemma {:induction false} ChainStays(s: R.State, s': R.State)
    requires R.Inv(s) && R.Next(s, s')
    ensures s.chain <= s'.chain && s'.arrays != [] && |s.chain| <= |s'.chain| <= |s.chain| + 1
  {
  }

  /** No number is published by the step. */
  lemma {:induction false} NumbersKept(g: P.Setting, b: Both, b': Both)
    requires Inv(g, b) && (b'.r == b.r || R.Next(b.r, b'.r)) && |b'.r.chain| == |b.r.chain|
    requires b'.p.numbers == b.p.numbers && b'.r.version == b'.p.version && b'.owner == b.owner
    requires |b'.given| == |b.given|
    ensures SameNumbers(b')
  {
    if b'.r != b.r {
      ChainStays(b.r, b'.r);
      forall n | 0 <= n < |b.r.chain| ensures R.FromAt(R.Current(b'.r), n) == b.p.numbers[n].from {
        FromStays(b.r, b'.r, n);
      }
    }
  }

  /** The step publishes one number, of the chain c. */
  lemma {:induction false} NumbersMore(g: P.Setting, b: Both, b': Both, c: nat)
    requires Inv(g, b) && R.Next(b.r, b'.r) && b'.r.chain == b.r.chain + [c] && c <= |b.r.chain|
    requires |b'.p.numbers| == |b.p.numbers| + 1 && b.p.numbers <= b'.p.numbers && b'.r.version == b'.p.version
    requires |b'.owner| == |b.owner| + 1 && b.owner <= b'.owner && |b'.given| == |b.given| + 1
    requires b'.r.arrays != [] && R.FromAt(R.Current(b'.r), |b.r.chain|) == b'.p.numbers[|b.r.chain|].from
    requires b'.owner[c] == b'.owner[|b.owner|]
    ensures SameNumbers(b')
  {
    forall n | 0 <= n < |b'.r.chain|
      ensures R.FromAt(R.Current(b'.r), n) == b'.p.numbers[n].from
      ensures b'.r.chain[n] < |b'.owner| && b'.owner[n] == b'.owner[b'.r.chain[n]]
    {
      if n < |b.r.chain| {
        FromStays(b.r, b'.r, n);
        assert b'.p.numbers[n] == b.p.numbers[n] && b'.owner[n] == b.owner[n];
      }
    }
  }

  lemma {:induction false} GivenMore(g: P.Setting, b: Both, b': Both, n: nat, conds: seq<NCond>)
    requires n < |b.given| && n < |b'.given| && GivenSet(g, b, n, conds)
    requires forall rule :: rule in b.given[n] ==> rule in b'.given[n]
    ensures GivenSet(g, b', n, conds)
  {
    var rule :| rule in b.given[n] && IsSetOf(g.w, rule, conds);
    assert rule in b'.given[n];
  }

  /** What is given for m when the rule is given for n too. */
  function GivenWith(b: Both, m: nat, n: nat, rule: Rules.ConditionSet): seq<Rules.ConditionSet> {
    (if m < |b.given| then b.given[m] else []) + if m == n then [rule] else []
  }

  /** A writer starts to insert the sets of the rule under n. */
  lemma {:induction false} StartsInserting(g: P.Setting, b: Both, b': Both, n: nat, rule: Rules.ConditionSet)
    requires Inv(g, b) && b.p.writer.Idle? && b'.p.rules == b.p.rules && NormalizeRule(g.w, rule).Some?
    requires b'.p.writer.Adding? && b'.p.writer.job.num == n && b'.p.writer.k == 0
    requires b'.p.writer.job.sets == NormalizeRule(g.w, rule).value
    requires |b.given| <= |b'.given| && n < |b'.given|
    requires forall m :: 0 <= m < |b'.given| ==> b'.given[m] == GivenWith(b, m, n, rule)
    ensures GivenOnly(g, b') && AllInserted(g, b') && AllValid(g, b')
  {
    forall r | r in b'.p.rules ensures r.num < |b'.given| && GivenSet(g, b', r.num, r.conds) {
      GivenMore(g, b, b', r.num, r.conds);
    }
    forall conds | conds in b'.p.writer.job.sets ensures GivenSet(g, b', n, conds) {
      assert rule in b'.given[n] && IsSetOf(g.w, rule, conds);
    }
    forall m: nat, q, conds | m < |b'.given| && q in b'.given[m] && IsSetOf(g.w, q, conds)
      ensures P.Rule(m, conds) in b'.p.rules || ToInsert(b'.p, m, conds)
    {
      if m < |b.given| && q in b.given[m] {
        assert !ToInsert(b.p, m, conds);
      } else {
        assert q == rule && m == n && b'.p.writer.job.sets[0..] == b'.p.writer.job.sets;
      }
    }
  }

  lemma {:induction false} AddNewKeeps(g: P.Setting, b: Both, b': Both)
    requires Inv(g, b) && AddNew(g, b, b')
    ensures Inv(g, b')
  {
    var id, rule :| NormalizeRule(g.w, rule).Some? && id !in b.owner && R.Add(b.r, b'.r) &&
                    P.StartAddOf(b.p, b'.p, |b.p.numbers|, NormalizeRule(g.w, rule).value) &&
                    b'.owner == b.owner + [id] && b'.given == b.given + [[rule]];
    R.NextKeeps(b.r, b'.r);
    P.NextKeeps(g, b.p, b'.p);
    NumbersMore(g, b, b', |b.r.chain|);
    StartsInserting(g, b, b', |b.given|, rule);
  }

  lemma {:induction false} AddMoreKeeps(g: P.Setting, b: Both, b': Both)
    requires Inv(g, b) && AddMore(g, b, b')
    ensures Inv(g, b')
  {
    var n: nat, rule :| AddMoreOf(g, b, b', n, rule);
    P.NextKeeps(g, b.p, b'.p);
    NumbersKept(g, b, b');
    StartsInserting(g, b, b', n, rule);
  }

  lemma {:induction false} SameGiven(g: P.Setting, b: Both, b': Both)
    requires Inv(g, b) && b'.given == b.given && b'.p.rules == b.p.rules
    requires b'.p.writer == b.p.writer ||
             (b.p.writer.Adding? && b'.p.writer.Adding? && b'.p.writer == b.p.writer.(i := b'.p.writer.i))
    ensures GivenOnly(g, b') && AllInserted(g, b') && AllValid(g, b')
  {
    forall r | r in b'.p.rules ensures r.num < |b'.given| && GivenSet(g, b', r.num, r.conds) {
      GivenMore(g, b, b', r.num, r.conds);
    }
    if b'.p.writer.Adding? && b'.p.writer.job.num < |b'.given| {
      forall conds | conds in b'.p.writer.job.sets ensures GivenSet(g, b', b'.p.writer.job.num, conds) {
        GivenMore(g, b, b', b'.p.writer.job.num, conds);
      }
    }
    forall m: nat, q, conds | m < |b'.given| && q in b'.given[m] && IsSetOf(g.w, q, conds)
      ensures P.Rule(m, conds) in b'.p.rules || ToInsert(b'.p, m, conds)
    {
      assert P.Rule(m, conds) in b.p.rules || ToInsert(b.p, m, conds);
    }
  }

  lemma {:induction false} PrepareKeeps(g: P.Setting, b: Both, b': Both)
    requires Inv(g, b) && Prepare(b, b')
    ensures Inv(g, b')
  {
    R.NextKeeps(b.r, b'.r);
    NumbersKept(g, b, b');
    SameGiven(g, b, b');
  }

  lemma {:induction false} ListKeeps(g: P.Setting, b: Both, b': Both)
    requires Inv(g, b) && List(g, b, b')
    ensures Inv(g, b')
  {
    var rule :| ListOf(g, b, b', rule);
    R.NextKeeps(b.r, b'.r);
    P.NextKeeps(g, b.p, b'.p);
    var o := b.r.writer.job.old_;
    assert b.owner[o] == b.owner[b.r.chain[o]];
    NumbersMore(g, b, b', b.r.chain[o]);
    StartsInserting(g, b, b', |b.given|, rule);
  }

  lemma {:induction false} InsertedNext(s: P.State, s': P.State, n: nat, conds: seq<NCond>)
    requires P.Complete(s, s') && ToInsert(s, n, conds)
    ensures P.Rule(n, conds) in s'.rules || ToInsert(s', n, conds)
  {
    var sets, k := s.writer.job.sets, s.writer.k;
    assert sets[k..] == [sets[k]] + sets[k + 1..];
  }

  lemma {:induction false} CompleteKeeps(g: P.Setting, b: Both, b': Both)
    requires Inv(g, b) && P.Complete(b.p, b'.p) && b' == b.(p := b'.p)
    ensures GivenOnly(g, b') && AllInserted(g, b') && AllValid(g, b')
  {
    var job, k := b.p.writer.job, b.p.writer.k;
    forall r | r in b'.p.rules ensures r.num < |b'.given| && GivenSet(g, b', r.num, r.conds) {
      if r in b.p.rules {
        GivenMore(g, b, b', r.num, r.conds);
      } else {
        GivenMore(g, b, b', job.num, job.sets[k]);
      }
    }
    forall conds | conds in job.sets ensures GivenSet(g, b', job.num, conds) {
      GivenMore(g, b, b', job.num, conds);
    }
    forall m: nat, q, conds | m < |b'.given| && q in b'.given[m] && IsSetOf(g.w, q, conds)
      ensures P.Rule(m, conds) in b'.p.rules || ToInsert(b'.p, m, conds)
    {
      assert P.Rule(m, conds) in b.p.rules || ToInsert(b.p, m, conds);
      if ToInsert(b.p, m, conds) {
        InsertedNext(b.p, b'.p, m, conds);
      }
    }
  }

  lemma {:induction false} AddsPathSame(s: P.State, s': P.State)
    requires P.AddsPath(s, s')
    ensures s'.rules == s.rules && s'.numbers == s.numbers && s'.version == s.version && s'.reader == s.reader
    ensures s.writer.Adding? && s'.writer.Adding? && s'.writer == s.writer.(i := s'.writer.i)
  {
  }

  lemma {:induction false} InsertSetsKeeps(g: P.Setting, b: Both, b': Both)
    requires Inv(g, b) && InsertSets(b, b')
    ensures Inv(g, b')
  {
    P.NextKeeps(g, b.p, b'.p);
    if P.Complete(b.p, b'.p) {
      NumbersKept(g, b, b');
      CompleteKeeps(g, b, b');
    } else {
      AddsPathSame(b.p, b'.p);
      NumbersKept(g, b, b');
      SameGiven(g, b, b');
    }
  }

  /** Nothing is left to be inserted. */
  lemma {:induction false} FinishKeeps(g: P.Setting, b: Both, b': Both)
    requires Inv(g, b) && P.Finish(b.p, b'.p) && b'.given == b.given
    ensures GivenOnly(g, b') && AllInserted(g, b') && AllValid(g, b')
  {
    forall r | r in b'.p.rules ensures r.num < |b'.given| && GivenSet(g, b', r.num, r.conds) {
      GivenMore(g, b, b', r.num, r.conds);
    }
    forall m: nat, q, conds | m < |b'.given| && q in b'.given[m] && IsSetOf(g.w, q, conds)
      ensures P.Rule(m, conds) in b'.p.rules
    {
      assert P.Rule(m, conds) in b.p.rules || ToInsert(b.p, m, conds);
      assert b.p.writer.job.sets[b.p.writer.k..] == [];
    }
  }

  lemma {:induction false} FinishAddKeeps(g: P.Setting, b: Both, b': Both)
    requires Inv(g, b) && FinishAdd(b, b')
    ensures Inv(g, b')
  {
    P.NextKeeps(g, b.p, b'.p);
    NumbersKept(g, b, b');
    FinishKeeps(g, b, b');
  }

  lemma {:induction false} RetireKeeps(g: P.Setting, b: Both, b': Both)
    requires Inv(g, b) && Retire(b, b')
    ensures Inv(g, b')
  {
    R.NextKeeps(b.r, b'.r);
    NumbersKept(g, b, b');
    SameGiven(g, b, b');
  }

  lemma {:induction false} PublishKeeps(g: P.Setting, b: Both, b': Both)
    requires Inv(g, b) && Publish(b, b')
    ensures Inv(g, b')
  {
    R.NextKeeps(b.r, b'.r);
    P.NextKeeps(g, b.p, b'.p);
    NumbersKept(g, b, b');
    FinishKeeps(g, b, b');
  }

  lemma {:induction false} BeginKeeps(g: P.Setting, b: Both, b': Both)
    requires Inv(g, b) && Begin(b, b')
    ensures Inv(g, b')
  {
    R.NextKeeps(b.r, b'.r);
    P.NextKeeps(g, b.p, b'.p);
    NumbersKept(g, b, b');
    SameGiven(g, b, b');
  }

  lemma {:induction false} LoadIdsKeeps(g: P.Setting, b: Both, b': Both)
    requires Inv(g, b) && LoadIds(b, b')
    ensures Inv(g, b')
  {
    R.NextKeeps(b.r, b'.r);
    P.NextKeeps(g, b.p, b'.p);
    NumbersKept(g, b, b');
    SameGiven(g, b, b');
  }

  lemma {:induction false} LeaveKeeps(g: P.Setting, b: Both, b': Both)
    requires Inv(g, b) && Leave(b, b')
    ensures Inv(g, b')
  {
    R.NextKeeps(b.r, b'.r);
    P.NextKeeps(g, b.p, b'.p);
    NumbersKept(g, b, b');
    SameGiven(g, b, b');
  }

  lemma {:induction false} ReadMoreKeeps(g: P.Setting, b: Both, b': Both)
    requires Inv(g, b) && ReadMore(g, b, b')
    ensures Inv(g, b')
  {
    if b'.r != b.r {
      R.NextKeeps(b.r, b'.r);
    } else {
      P.NextKeeps(g, b.p, b'.p);
    }
    NumbersKept(g, b, b');
    SameGiven(g, b, b');
  }

  lemma {:induction false} NextKeeps(g: P.Setting, b: Both, b': Both)
    requires Inv(g, b) && Next(g, b, b')
    ensures Inv(g, b')
  {
    if AddNew(g, b, b') {
      AddNewKeeps(g, b, b');
    } else if AddMore(g, b, b') {
      AddMoreKeeps(g, b, b');
    } else if Prepare(b, b') {
      PrepareKeeps(g, b, b');
    } else if List(g, b, b') {
      ListKeeps(g, b, b');
    } else if InsertSets(b, b') {
      InsertSetsKeeps(g, b, b');
    } else if FinishAdd(b, b') {
      FinishAddKeeps(g, b, b');
    } else if Retire(b, b') {
      RetireKeeps(g, b, b');
    } else if Publish(b, b') {
      PublishKeeps(g, b, b');
    } else if Begin(b, b') {
      BeginKeeps(g, b, b');
    } else if LoadIds(b, b') {
      LoadIdsKeeps(g, b, b');
    } else if Leave(b, b') {
      LeaveKeeps(g, b, b');
    } else {
      ReadMoreKeeps(g, b, b');
    }
  }

  // ------------------------------------------------------------- the entries

  /** The number of the chain c that is current at the version. */
  ghost function NumberAt(b: Both, version: nat, c: nat): nat
    requires exists n: nat :: IsNumberAt(b, version, c, n)
  {
    var n: nat :| IsNumberAt(b, version, c, n);
    n
  }

  ghost predicate IsNumberAt(b: Both, version: nat, c: nat, n: nat) {
    n < |b.r.chain| && b.r.chain[n] == c && R.CurrentAt(b.r, version, n)
  }

  /** The identifiers of the first n numbers, with the rules they had at the version, in order of addition. */
  ghost function EntriesAt(b: Both, version: nat, n: nat): seq<Entry<Id>>
    requires n <= |b.r.chain| && |b.owner| == |b.given| == |b.r.chain|
  {
    if n == 0 then []
    else
      var c := n - 1;
      EntriesAt(b, version, c) +
      if b.r.chain[c] != c then []
      else if exists k: nat :: IsNumberAt(b, version, c, k) then
        [Entry(b.owner[c], b.given[NumberAt(b, version, c)])]
      else []
  }

  lemma {:induction false} NumberUnique(b: Both, version: nat, c: nat, n: nat, m: nat)
    requires R.Inv(b.r) && version <= b.r.version
    requires IsNumberAt(b, version, c, n) && IsNumberAt(b, version, c, m)
    ensures n == m
  {
    assert R.GoodNumber(b.r, n) && R.GoodNumber(b.r, m);
    assert R.SameChain(b.r, n, m) ==> R.Apart(b.r, n, m);
  }

  lemma {:induction false} NumberExists(b: Both, c: nat)
    requires R.Inv(b.r) && c < |b.r.chain| && b.r.chain[c] == c
    ensures exists n: nat :: IsNumberAt(b, b.r.version, c, n)
  {
    assert R.GoodNumber(b.r, c);
    var n := R.FindVisible(b.r, b.r.version, c);
    assert IsNumberAt(b, b.r.version, c, n);
  }

  // ---------------------------------------------------------------- the call

  /** The writer is not in an AddRule. */
  predicate OnlyReplaces(b: Both) {
    b.p.writer.Adding? ==> b.p.writer.job.version.Some?
  }

  /** What the steps of ReplaceRule have left alone since a call loaded the version in state a. */
  ghost predicate Since(a: Both, b: Both) {
    && a.r.chain <= b.r.chain && a.owner <= b.owner && a.given <= b.given && |b.p.numbers| == |b.r.chain|
    && !b.p.reader.Outside? && b.p.reader.version == a.p.version <= b.p.version
    && (!b.p.reader.HasVersion? ==> |a.r.chain| <= b.p.reader.limit)
    && (forall n: nat :: n < |b.r.chain| ==> NumberSince(a, b, n))
    && forall r :: r in b.p.rules ==>
         r in b.p.reader.done || (r.num < |b.p.numbers| && b.p.numbers[r.num].from > a.p.version)
  }

  ghost predicate NumberSince(a: Both, b: Both, n: nat)
    requires n < |b.r.chain| == |b.p.numbers|
  {
    if n < |a.r.chain| then R.CurrentAt(b.r, a.p.version, n) <==> R.CurrentAt(a.r, a.p.version, n)
    else b.r.chain[n] < |a.r.chain| && b.p.numbers[n].from > a.p.version
  }

  lemma {:induction false} SinceBegin(g: P.Setting, a: Both, b: Both)
    requires Inv(g, a) && Begin(a, b)
    ensures Since(a, b)
  {
  }

  lemma {:induction false} NumberSinceStep(g: P.Setting, a: Both, b: Both, b': Both, n: nat)
    requires Inv(g, b) && Since(a, b) && (b'.r == b.r || R.Next(b.r, b'.r)) && n < |b.r.chain|
    requires b.r.chain <= b'.r.chain && b.p.numbers <= b'.p.numbers && |b'.p.numbers| == |b'.r.chain|
    ensures NumberSince(a, b', n)
  {
    assert NumberSince(a, b, n);
    if b'.r != b.r && n < |a.r.chain| {
      R.PastIsStable(b.r, b'.r, a.p.version, n);
      ChainStays(b.r, b'.r);
    }
  }

  /** A step that publishes no number. */
  lemma {:induction false} SinceSameNumbers(g: P.Setting, a: Both, b: Both, b': Both)
    requires Inv(g, b) && Since(a, b) && (b'.r == b.r || R.Next(b.r, b'.r)) && b'.r.chain == b.r.chain
    requires b'.p.numbers == b.p.numbers && b'.owner == b.owner && b'.given == b.given
    requires b'.p.rules == b.p.rules && b.p.version <= b'.p.version
    requires !b'.p.reader.Outside? && b'.p.reader.version == b.p.reader.version && b'.p.reader.done == b.p.reader.done
    requires !b'.p.reader.HasVersion? ==> |a.r.chain| <= b'.p.reader.limit
    ensures Since(a, b')
  {
    forall n: nat | n < |b'.r.chain| ensures NumberSince(a, b', n) {
      NumberSinceStep(g, a, b, b', n);
    }
  }

  lemma {:induction false} SinceList(g: P.Setting, a: Both, b: Both, b': Both)
    requires Inv(g, b) && Since(a, b) && List(g, b, b')
    ensures Since(a, b')
  {
    var rule :| ListOf(g, b, b', rule);
    var o := b.r.writer.job.old_;
    assert R.GoodNumber(b.r, o) && NumberSince(a, b, o);
    forall n: nat | n < |b'.r.chain| ensures NumberSince(a, b', n) {
      if n < |b.r.chain| {
        NumberSinceStep(g, a, b, b', n);
      }
    }
  }

  lemma {:induction false} SinceComplete(g: P.Setting, a: Both, b: Both, b': Both)
    requires Inv(g, b) && Since(a, b) && OnlyReplaces(b) && P.Complete(b.p, b'.p) && b' == b.(p := b'.p)
    ensures Since(a, b')
  {
    forall n: nat | n < |b'.r.chain| ensures NumberSince(a, b', n) {
      NumberSinceStep(g, a, b, b', n);
    }
  }

  lemma {:induction false} AddsRule(g: P.Setting, b: Both, b': Both)
    requires AddNew(g, b, b') || AddMore(g, b, b')
    ensures !OnlyReplaces(b')
  {
  }

  /** A step that is none of those that publish a number or complete a condition set. */
  lemma {:induction false} SinceWrites(g: P.Setting, a: Both, b: Both, b': Both)
    requires Inv(g, b) && Since(a, b) && OnlyReplaces(b)
    requires Prepare(b, b') || FinishAdd(b, b') || Retire(b, b') || Publish(b, b') ||
             (P.AddsPath(b.p, b'.p) && b' == b.(p := b'.p))
    ensures Since(a, b')
  {
    if P.AddsPath(b.p, b'.p) {
      AddsPathSame(b.p, b'.p);
    }
    SinceSameNumbers(g, a, b, b');
  }

  lemma {:induction false} SinceReads(g: P.Setting, a: Both, b: Both, b': Both)
    requires Inv(g, b) && Since(a, b) && !b'.p.reader.Outside?
    requires Begin(b, b') || LoadIds(b, b') || ReadMore(g, b, b') || Leave(b, b')
    ensures Since(a, b')
  {
    SinceSameNumbers(g, a, b, b');
  }

  lemma {:induction false} SinceStep(g: P.Setting, a: Both, b: Both, b': Both)
    requires Inv(g, b) && Next(g, b, b') && Since(a, b)
    requires OnlyReplaces(b) && OnlyReplaces(b') && !b'.p.reader.Outside?
    ensures Since(a, b')
  {
    if AddNew(g, b, b') || AddMore(g, b, b') {
      AddsRule(g, b, b');
    } else if List(g, b, b') {
      SinceList(g, a, b, b');
    } else if P.Complete(b.p, b'.p) {
      SinceComplete(g, a, b, b');
    } else if Writes(g, b, b') {
      SinceWrites(g, a, b, b');
    } else {
      SinceReads(g, a, b, b');
    }
  }

  type Run = seq<Both>

  ghost predicate StepAt(g: P.Setting, run: Run, i: nat) {
    i + 1 < |run| && Next(g, run[i], run[i + 1])
  }

  ghost predicate IsRun(g: P.Setting, run: Run) {
    run != [] && run[0] == START && forall i :: 0 <= i < |run| - 1 ==> StepAt(g, run, i)
  }

  lemma {:induction false} RunKeeps(g: P.Setting, run: Run, i: nat)
    requires IsRun(g, run) && i < |run|
    ensures Inv(g, run[i])
  {
    if i == 0 {
      StartInv(g);
    } else {
      RunKeeps(g, run, i - 1);
      assert StepAt(g, run, i - 1);
      NextKeeps(g, run[i - 1], run[i]);
    }
  }

  /** A call begins with the step after i and has not returned before k, and AddRule does not run meanwhile. */
  ghost predicate InCall(run: Run, i: nat, k: nat) {
    && i < k < |run| && Begin(run[i], run[i + 1])
    && (forall q :: i <= q <= k ==> OnlyReplaces(run[q])) && forall q :: i < q <= k ==> !run[q].p.reader.Outside?
  }

  lemma {:induction false} SinceRunStep(g: P.Setting, run: Run, a: Both, k: nat)
    requires IsRun(g, run) && 0 < k < |run| && Since(a, run[k - 1])
    requires OnlyReplaces(run[k - 1]) && OnlyReplaces(run[k]) && !run[k].p.reader.Outside?
    ensures Since(a, run[k])
  {
    RunKeeps(g, run, k - 1);
    assert StepAt(g, run, k - 1);
    SinceStep(g, a, run[k - 1], run[k]);
  }

  lemma {:induction false} SinceRun(g: P.Setting, run: Run, i: nat, k: nat)
    requires IsRun(g, run) && InCall(run, i, k)
    ensures Since(run[i], run[k])
    decreases k
  {
    if k == i + 1 {
      RunKeeps(g, run, i);
      SinceBegin(g, run[i], run[k]);
    } else {
      SinceRun(g, run, i, k - 1);
      SinceRunStep(g, run, run[i], k);
    }
  }

  // ----------------------------------------------------------- what it reports

  /** The call is ready to report: it has loaded everything. */
  ghost predicate AllRead(g: P.Setting, b: Both) {
    b.r.reader.Ready? && P.Ready(g, b.p)
  }

  /** The walk reaches a rule with number n. */
  ghost predicate Reached(g: P.Setting, b: Both, n: nat)
    requires P.Ready(g, b.p)
  {
    exists r :: r in b.p.rules && r.num == n && P.Follows(g, b.p, r.conds)
  }

  /** The call reports the chain c: a number of it that it sees is reached. */
  ghost predicate Reports(g: P.Setting, b: Both, c: nat)
    requires P.Ready(g, b.p)
  {
    exists n: nat :: R.Sees(b.r, n) && n < |b.r.chain| && b.r.chain[n] == c && Reached(g, b, n)
  }

  /** What the call returns of the first n numbers, by the order keys, which are those of the chains. */
  ghost function Result(g: P.Setting, b: Both, n: nat): seq<Id>
    requires P.Ready(g, b.p) && n <= |b.r.chain| == |b.owner|
  {
    if n == 0 then []
    else Result(g, b, n - 1) + if b.r.chain[n - 1] == n - 1 && Reports(g, b, n - 1) then [b.owner[n - 1]] else []
  }

  /** The call sees exactly the numbers that were current when it began. */
  lemma {:induction false} SeenSince(g: P.Setting, a: Both, b: Both, n: nat)
    requires Inv(g, a) && Inv(g, b) && Since(a, b) && AllRead(g, b) && n < |b.r.chain|
    ensures R.Sees(b.r, n) <==> n < |a.r.chain| && R.CurrentAt(a.r, a.p.version, n)
    ensures n < |a.r.chain| && R.CurrentAt(a.r, a.p.version, n) ==> b.p.numbers[n].from <= a.p.version
  {
    assert NumberSince(a, b, n);
    if n < b.r.reader.limit {
      R.SeesCurrent(b.r, n);
    }
  }

  /** For a number it sees, the rules it was given hold exactly if one of its condition sets is followed. */
  lemma {:induction false} ReachedMeaning(g: P.Setting, a: Both, b: Both, n: nat)
    requires P.GoodSetting(g) && g.w.Lawful() && Inv(g, b) && Since(a, b) && AllRead(g, b) && OnlyReplaces(b)
    requires n < |b.given| && n < |b.p.numbers| && b.p.numbers[n].from <= a.p.version
    ensures Reached(g, b, n) <==> exists rule :: rule in b.given[n] && Rules.RuleHolds(g.w, rule, P.EventOf(g))
  {
    var event := P.EventOf(g);
    if Reached(g, b, n) {
      var r :| r in b.p.rules && r.num == n && P.Follows(g, b.p, r.conds);
      P.DoneExact(g, b.p, r);
      assert GivenSet(g, b, n, r.conds);
      var rule :| rule in b.given[n] && IsSetOf(g.w, rule, r.conds);
      NormalizeCorrect.RuleMeaning(g.w, rule, event);
    }
    if rule :| rule in b.given[n] && Rules.RuleHolds(g.w, rule, event) {
      NormalizeCorrect.RuleMeaning(g.w, rule, event);
      var sets := NormalizeRule(g.w, rule).value;
      var i :| 0 <= i < |sets| && SetHolds(g.w, sets[i], event);
      RuleInserted(g, a, b, n, rule, sets[i]);
      P.DoneExact(g, b.p, P.Rule(n, sets[i]));
    }
  }

  lemma {:induction false} RuleInserted(g: P.Setting, a: Both, b: Both, n: nat, rule: Rules.ConditionSet,
                                        conds: seq<NCond>)
    requires Inv(g, b) && Since(a, b) && OnlyReplaces(b) && n < |b.given| && n < |b.p.numbers|
    requires b.p.numbers[n].from <= a.p.version && rule in b.given[n] && IsSetOf(g.w, rule, conds)
    ensures P.Rule(n, conds) in b.p.rules && P.Rule(n, conds) in b.p.reader.done
  {
    assert P.Rule(n, conds) in b.p.rules || ToInsert(b.p, n, conds);
  }

  /** A chain is reported exactly if the entry it had when the call began holds. */
  lemma {:induction false} ReportsEntry(g: P.Setting, a: Both, b: Both, c: nat)
    requires P.GoodSetting(g) && g.w.Lawful() && Inv(g, a) && Inv(g, b) && Since(a, b) && AllRead(g, b)
    requires OnlyReplaces(b) && c < |a.r.chain| && a.r.chain[c] == c
    ensures exists n: nat :: IsNumberAt(a, a.p.version, c, n)
    ensures Reports(g, b, c) <==>
            EntryHolds(g.w, Entry(a.owner[c], a.given[NumberAt(a, a.p.version, c)]), P.EventOf(g))
  {
    NumberExists(a, c);
    var m := NumberAt(a, a.p.version, c);
    assert IsNumberAt(a, a.p.version, c, m) && b.given[m] == a.given[m] && b.r.chain[m] == a.r.chain[m];
    SeenSince(g, a, b, m);
    ReachedMeaning(g, a, b, m);
    if Reports(g, b, c) {
      var n: nat :| R.Sees(b.r, n) && n < |b.r.chain| && b.r.chain[n] == c && Reached(g, b, n);
      SeenSince(g, a, b, n);
      NumberUnique(a, a.p.version, c, n, m);
    }
  }

  lemma {:induction false} MatchesSnoc(w: World, init: seq<Entry<Id>>, last: Entry<Id>, event: Rules.Event)
    ensures Matches(w, init + [last], event) ==
            Matches(w, init, event) + if EntryHolds(w, last, event) then [last.id] else []
  {
    assert (init + [last])[..|init|] == init;
  }

  /** The call in b reports the number c exactly if it is the first one of an entry of a that holds. */
  ghost predicate Agrees(g: P.Setting, a: Both, b: Both, c: nat)
    requires P.Ready(g, b.p) && |a.owner| == |a.given| == |a.r.chain| && |b.owner| == |b.r.chain|
  {
    && c < |a.r.chain| && c < |b.r.chain| && b.r.chain[c] == a.r.chain[c] && b.owner[c] == a.owner[c]
    && (a.r.chain[c] == c ==>
          && (exists n: nat :: IsNumberAt(a, a.p.version, c, n)) && NumberAt(a, a.p.version, c) < |a.given|
          && (Reports(g, b, c) <==>
              EntryHolds(g.w, Entry(a.owner[c], a.given[NumberAt(a, a.p.version, c)]), P.EventOf(g))))
  }

  lemma {:induction false} AgreesAt(g: P.Setting, a: Both, b: Both, c: nat)
    requires P.GoodSetting(g) && g.w.Lawful() && Inv(g, a) && Inv(g, b) && Since(a, b) && AllRead(g, b)
    requires OnlyReplaces(b) && c < |a.r.chain|
    ensures Agrees(g, a, b, c)
  {
    assert b.r.chain[c] == a.r.chain[c] && b.owner[c] == a.owner[c];
    if a.r.chain[c] == c {
      ReportsEntry(g, a, b, c);
    }
  }

  lemma {:induction false} ResultIsMatches(g: P.Setting, a: Both, b: Both, n: nat)
    requires P.Ready(g, b.p) && |a.owner| == |a.given| == |a.r.chain| && |b.owner| == |b.r.chain|
    requires n <= |a.r.chain| && n <= |b.r.chain| && forall c: nat :: c < n ==> Agrees(g, a, b, c)
    ensures Result(g, b, n) == Matches(g.w, EntriesAt(a, a.p.version, n), P.EventOf(g))
  {
    if n > 0 {
      var c := n - 1;
      ResultIsMatches(g, a, b, c);
      assert Agrees(g, a, b, c);
      if a.r.chain[c] == c {
        MatchesSnoc(g.w, EntriesAt(a, a.p.version, c), Entry(a.owner[c], a.given[NumberAt(a, a.p.version, c)]),
                    P.EventOf(g));
      } else {
        assert EntriesAt(a, a.p.version, n) == EntriesAt(a, a.p.version, c);
      }
    }
  }

  /** No chain has begun since the call did. */
  lemma {:induction false} ResultStays(g: P.Setting, a: Both, b: Both, n: nat)
    requires Inv(g, b) && Since(a, b) && P.Ready(g, b.p) && |a.r.chain| <= n <= |b.r.chain|
    ensures Result(g, b, n) == Result(g, b, |a.r.chain|)
  {
    if n > |a.r.chain| {
      ResultStays(g, a, b, n - 1);
      assert NumberSince(a, b, n - 1);
    }
  }

  /**
   * While only ReplaceRule runs, however its steps and those of the call are
   * interleaved, the call returns the naive matches of the rules as they were
   * when it loaded the version.
   */
  lemma {:induction false} MatchIsAtomic(g: P.Setting, run: Run, i: nat, k: nat)
    requires P.GoodSetting(g) && g.w.Lawful() && IsRun(g, run) && InCall(run, i, k) && AllRead(g, run[k])
    ensures Inv(g, run[i]) && Inv(g, run[k])
    ensures Result(g, run[k], |run[k].r.chain|) ==
            Matches(g.w, EntriesAt(run[i], run[i].p.version, |run[i].r.chain|), P.EventOf(g))
  {
    RunKeeps(g, run, i);
    RunKeeps(g, run, k);
    SinceRun(g, run, i, k);
    forall c: nat | c < |run[i].r.chain| ensures Agrees(g, run[i], run[k], c) {
      AgreesAt(g, run[i], run[k], c);
    }
    ResultIsMatches(g, run[i], run[k], |run[i].r.chain|);
    ResultStays(g, run[i], run[k], |run[k].r.chain|);
  }
}
