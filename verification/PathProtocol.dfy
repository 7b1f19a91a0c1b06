/**
 * Adding the paths of rules against one concurrent Match call that gathers the
 * values of an event, as interleaved atomic steps (addPath and reset in
 * engine.go, resetJSON in matchjson.go, AddRule, ReplaceRule and begin in
 * hypermatch.go). A call can only gather values for paths it finds when it
 * looks them up.
 */
module PathProtocol {
  import opened ByteStrings
  import opened Expressions
  import opened Semantics
  import Formulas
  import JsonRecords
  import Lookups
  import Paths
  import Rules

  /** A condition set that is in the trie under a rule number. */
  datatype Rule = Rule(num: nat, conds: seq<NCond>)

  /**
   * The lookups of a call. With direct, the values of a property are gathered
   * under its own path even if no rule refers to it (Match).
   */
  datatype Setting = Setting(w: World, call: Lookups.Call, direct: bool)

  ghost predicate GoodSetting(g: Setting) {
    Lookups.Good(g.call) && (g.direct ==> forall a :: a in g.call ==> !a.Enter?)
  }

  function EventOf(g: Setting): Rules.Event {
    Lookups.EventOf(g.call)
  }

  /** What the writer has to add under num; the version says when the number of a replacement becomes visible. */
  datatype Job = Job(num: nat, sets: seq<seq<NCond>>, version: Option<nat>)

  /** k sets are complete, and i paths of the next one are recorded. */
  datatype Writer = Idle | Adding(job: Job, k: nat, i: nat)

  /**
   * What a call has loaded: the version, the number of ids, whether absent
   * properties matter, a table of wildcard paths, and then what it has found in
   * each of its lookups. start and done are the paths and the rules there were
   * when it loaded the version.
   */
  datatype Reader =
    | Outside
    | HasVersion(version: nat, start: set<Bytes>, done: set<Rule>)
    | HasLimit(version: nat, start: set<Bytes>, done: set<Rule>, limit: nat)
    | HasAbsent(version: nat, start: set<Bytes>, done: set<Rule>, limit: nat, absent: bool)
    | Reading(version: nat, start: set<Bytes>, done: set<Rule>, limit: nat, absent: bool, table: nat,
              found: seq<bool>)

  /** By number: the version it is visible from, and the condition sets ReplaceRule created it with. */
  datatype Number = Number(from: nat, made: seq<seq<NCond>>)

  /**
   * wilds holds the tables with the parts of wildcard paths before ".*". The
   * last one is current; the first one stands for none, and nothing is stored
   * in it.
   */
  datatype State = State(paths: set<Bytes>, prefixes: set<Bytes>, wilds: seq<set<Bytes>>, hasAbsent: bool,
                         rules: set<Rule>, numbers: seq<Number>, version: nat, writer: Writer, reader: Reader)

  const START := State({}, {}, [{}], false, {}, [], 0, Idle, Outside)

  function Current(s: State): set<Bytes> {
    if s.wilds == [] then {} else s.wilds[|s.wilds| - 1]
  }

  // ------------------------------------------------------------------- steps

  /** AddRule: a new identifier, or one more rule of a present one. */
  ghost predicate StartAdd(s: State, s': State) {
    exists num: nat, sets :: StartAddOf(s, s', num, sets)
  }

  ghost predicate StartAddOf(s: State, s': State, num: nat, sets: seq<seq<NCond>>) {
    && s.writer.Idle? && num <= |s.numbers|
    && s' == s.(writer := Adding(Job(num, sets, None), 0, 0),
                numbers := if num < |s.numbers| then s.numbers else s.numbers + [Number(0, [])])
  }

  /** ReplaceRule: the new number is visible from the next version on. */
  ghost predicate StartReplace(s: State, s': State) {
    exists sets :: StartReplaceOf(s, s', sets)
  }

  ghost predicate StartReplaceOf(s: State, s': State, sets: seq<seq<NCond>>) {
    && s.writer.Idle?
    && s' == s.(writer := Adding(Job(|s.numbers|, sets, Some(s.version + 1)), 0, 0),
                numbers := s.numbers + [Number(s.version + 1, sets)])
  }

  predicate HasNext(s: State) {
    s.writer.Adding? && s.writer.k < |s.writer.job.sets| && s.writer.i < |s.writer.job.sets[s.writer.k]|
  }

  function NextCond(s: State): NCond
    requires HasNext(s)
  {
    s.writer.job.sets[s.writer.k][s.writer.i]
  }

  /** followAbsent stores hasAbsent before anything else. */
  ghost predicate SetAbsent(s: State, s': State) {
    HasNext(s) && NextCond(s).expr.Absent? && s' == s.(hasAbsent := true)
  }

  function NextDone(s: State): Writer
    requires s.writer.Adding?
  {
    s.writer.(i := s.writer.i + 1)
  }

  /** addPath returns at once if the path is known. */
  ghost predicate SkipPath(s: State, s': State) {
    && HasNext(s) && (NextCond(s).expr.Absent? ==> s.hasAbsent) && NextCond(s).path in s.paths
    && s' == s.(writer := NextDone(s))
  }

  /** addPath has to add the path p. */
  predicate Adds(s: State, p: Bytes) {
    HasNext(s) && (NextCond(s).expr.Absent? ==> s.hasAbsent) && NextCond(s).path == p && p !in s.paths
  }

  /** addPath first stores the parts of the path before its dots. */
  ghost predicate StorePrefix(s: State, s': State) {
    exists p, q :: StorePrefixOf(s, s', p, q)
  }

  ghost predicate StorePrefixOf(s: State, s': State, p: Bytes, q: Bytes) {
    Adds(s, p) && Paths.IsPrefix(q, p) && s' == s.(prefixes := s.prefixes + {q})
  }

  ghost predicate PrefixesKnown(prefixes: set<Bytes>, p: Bytes) {
    forall q :: Paths.IsPrefix(q, p) ==> q in prefixes
  }

  /** The next store is that of the wildcard path before whose ".*" is b. */
  ghost predicate AddsWild(s: State, b: Bytes) {
    && b != [] && Adds(s, Paths.WildPath(b)) && PrefixesKnown(s.prefixes, Paths.WildPath(b)) && s.wilds != []
    && b !in Current(s)
  }

  /** put may have to publish a larger table first. */
  ghost predicate GrowWilds(s: State, s': State) {
    exists b :: AddsWild(s, b) && s' == s.(wilds := s.wilds + [Current(s)])
  }

  ghost predicate StoreWild(s: State, s': State) {
    exists b :: StoreWildOf(s, s', b)
  }

  ghost predicate StoreWildOf(s: State, s': State, b: Bytes) {
    AddsWild(s, b) && |s.wilds| > 1 && s' == s.(wilds := s.wilds[|s.wilds| - 1 := Current(s) + {b}])
  }

  /** The path itself is stored last. */
  ghost predicate StorePath(s: State, s': State) {
    exists p :: StorePathOf(s, s', p)
  }

  ghost predicate StorePathOf(s: State, s': State, p: Bytes) {
    && Adds(s, p) && PrefixesKnown(s.prefixes, p)
    && (forall b: Bytes :: b != [] && p == Paths.WildPath(b) ==> b in Current(s))
    && s' == s.(paths := s.paths + {p}, writer := NextDone(s))
  }

  /** addRule, when all conditions of a set have been followed. */
  ghost predicate Complete(s: State, s': State) {
    && s.writer.Adding? && s.writer.k < |s.writer.job.sets| && s.writer.i == |s.writer.job.sets[s.writer.k]|
    && s' == s.(rules := s.rules + {Rule(s.writer.job.num, s.writer.job.sets[s.writer.k])},
                writer := s.writer.(k := s.writer.k + 1, i := 0))
  }

  /** ReplaceRule publishes the version last. */
  ghost predicate Finish(s: State, s': State) {
    && s.writer.Adding? && s.writer.k == |s.writer.job.sets|
    && s' == s.(writer := Idle, version := if s.writer.job.version.Some? then s.writer.job.version.value else s.version)
  }

  ghost predicate LoadVersion(s: State, s': State) {
    s.reader.Outside? && s' == s.(reader := HasVersion(s.version, s.paths, s.rules))
  }

  ghost predicate LoadIds(s: State, s': State) {
    s.reader.HasVersion? && s' == s.(reader := HasLimit(s.reader.version, s.reader.start, s.reader.done, |s.numbers|))
  }

  ghost predicate LoadAbsent(s: State, s': State) {
    s.reader.HasLimit? &&
    s' == s.(reader := HasAbsent(s.reader.version, s.reader.start, s.reader.done, s.reader.limit, s.hasAbsent))
  }

  ghost predicate LoadWilds(s: State, s': State) {
    s.reader.HasAbsent? && s.wilds != [] && var r := s.reader;
    s' == s.(reader := Reading(r.version, r.start, r.done, r.limit, r.absent, |s.wilds| - 1, []))
  }

  /** Wildcard paths are looked up in the table loaded before, all others in the current one. */
  predicate Answer(s: State, table: nat, a: Lookups.Lookup) {
    match a
    case Enter(path, _) => path in s.prefixes
    case Look(base, _) => table < |s.wilds| && base in s.wilds[table]
    case Value(path, _, _) => path in s.paths
  }

  ghost predicate LookUp(g: Setting, s: State, s': State) {
    && s.reader.Reading? && |s.reader.found| < |g.call|
    && s' == s.(reader := s.reader.(found := s.reader.found +
                                             [Answer(s, s.reader.table, g.call[|s.reader.found|])]))
  }

  ghost predicate Leave(s: State, s': State) {
    s.reader.Reading? && s' == s.(reader := Outside)
  }

  ghost predicate AddsPath(s: State, s': State) {
    || SetAbsent(s, s') || SkipPath(s, s') || StorePrefix(s, s') || GrowWilds(s, s') || StoreWild(s, s')
    || StorePath(s, s')
  }

  ghost predicate Writes(s: State, s': State) {
    StartAdd(s, s') || StartReplace(s, s') || AddsPath(s, s') || Complete(s, s') || Finish(s, s')
  }

  ghost predicate Loads(s: State, s': State) {
    LoadVersion(s, s') || LoadIds(s, s') || LoadAbsent(s, s') || LoadWilds(s, s') || Leave(s, s')
  }

  ghost predicate Next(g: Setting, s: State, s': State) {
    Writes(s, s') || Loads(s, s') || LookUp(g, s, s')
  }

  // ------------------------------------------------- what the call follows

  /** A wildcard path is open at position i. */
  ghost predicate Below(g: Setting, found: seq<bool>, i: nat) {
    i < |g.call| && exists x :: x in g.call[i].outer && x < |g.call| && x < |found| && g.call[x].Look? && found[x]
  }

  /** All objects around position i are recorded. */
  ghost predicate Recorded(g: Setting, found: seq<bool>, i: nat) {
    && i < |g.call|
    && forall e :: e in g.call[i].outer && e < |g.call| && g.call[e].Enter? ==>
         (e < |found| && found[e]) || Below(g, found, e)
  }

  /** a looks up the wildcard path p. */
  predicate LooksFor(a: Lookups.Lookup, p: Bytes) {
    a.Look? && a.path != [] && p == Paths.WildPath(a.path)
  }

  /** The wildcard path p is open at position i. */
  ghost predicate BelowPath(g: Setting, found: seq<bool>, i: nat, p: Bytes) {
    && i < |g.call|
    && exists x :: x in g.call[i].outer && x < |g.call| && x < |found| && LooksFor(g.call[x], p) && found[x]
  }

  /** The value at position i is gathered for path p. */
  ghost predicate Keeps(g: Setting, found: seq<bool>, p: Bytes, i: nat) {
    && Recorded(g, found, i) && g.call[i].Value?
    && ((g.call[i].path == p && (g.direct || (i < |found| && found[i]))) || BelowPath(g, found, i, p))
  }

  ghost function Kept(g: Setting, found: seq<bool>, p: Bytes): set<nat> {
    set i: nat | i < |g.call| && Keeps(g, found, p, i)
  }

  /** The values at the positions in keep, of the first n. */
  function Collect(call: Lookups.Call, keep: set<nat>, n: nat): seq<Bytes>
    requires n <= |call|
  {
    if n == 0 then []
    else Collect(call, keep, n - 1) + if call[n - 1].Value? && n - 1 in keep then call[n - 1].values else []
  }

  ghost function Gathered(g: Setting, found: seq<bool>, p: Bytes): seq<Bytes> {
    Collect(g.call, Kept(g, found, p), |g.call|)
  }

  ghost predicate Ready(g: Setting, s: State) {
    s.reader.Reading? && |s.reader.found| == |g.call|
  }

  ghost predicate CondFollowed(g: Setting, s: State, c: NCond)
    requires Ready(g, s)
  {
    (c.expr.Absent? ==> s.reader.absent) &&
    CondHolds(g.w, c, Rules.FoldAll(g.w, Gathered(g, s.reader.found, c.path)))
  }

  /** The walk reaches the end of the condition set. */
  ghost predicate Follows(g: Setting, s: State, conds: seq<NCond>)
    requires Ready(g, s)
  {
    forall c :: c in conds ==> CondFollowed(g, s, c)
  }

  predicate Visible(s: State, n: nat)
    requires s.reader.Reading?
  {
    n < |s.numbers| && n < s.reader.limit && s.numbers[n].from <= s.reader.version
  }

  // --------------------------------------------------------------- invariant

  /** b is the part before ".*" of the path that addPath is adding. */
  predicate IsNext(s: State, b: Bytes) {
    HasNext(s) && NextCond(s).path == Paths.WildPath(b)
  }

  ghost predicate GoodPath(s: State, p: Bytes) {
    PrefixesKnown(s.prefixes, p) && forall b: Bytes :: b != [] && p == Paths.WildPath(b) ==> b in Current(s)
  }

  ghost predicate GoodWild(s: State, b: Bytes) {
    && b != [] && PrefixesKnown(s.prefixes, Paths.WildPath(b))
    && (Paths.WildPath(b) in s.paths || IsNext(s, b))
  }

  /** A path is known last, and an older table only has paths that are known. */
  ghost predicate GoodPaths(s: State) {
    && s.wilds != [] && s.wilds[0] == {}
    && (forall p :: p in s.paths ==> GoodPath(s, p))
    && (forall b :: b in Current(s) ==> GoodWild(s, b))
    && forall t, b :: 0 <= t < |s.wilds| - 1 && b in s.wilds[t] ==> b in Current(s) && Paths.WildPath(b) in s.paths
  }

  /** All paths of a set are recorded, and hasAbsent is set if it needs it. */
  ghost predicate RecordedSet(paths: set<Bytes>, hasAbsent: bool, conds: seq<NCond>) {
    forall c :: c in conds ==> c.path in paths && (c.expr.Absent? ==> hasAbsent)
  }

  ghost predicate GoodRules(s: State) {
    forall r :: r in s.rules ==> r.num < |s.numbers| && RecordedSet(s.paths, s.hasAbsent, r.conds)
  }

  ghost predicate GoodWriter(s: State) {
    match s.writer
    case Idle => true
    case Adding(job, k, i) =>
      && job.num < |s.numbers| && k <= |job.sets| && i <= (if k < |job.sets| then |job.sets[k]| else 0)
      && (k < |job.sets| ==> RecordedSet(s.paths, s.hasAbsent, job.sets[k][..i]))
      && (forall l :: 0 <= l < k ==> Rule(job.num, job.sets[l]) in s.rules)
      && (job.version.Some? ==>
            job.version == Some(s.version + 1) && job.num == |s.numbers| - 1 &&
            s.numbers[job.num] == Number(s.version + 1, job.sets))
  }

  /** The sets a number was made with are among the rules. */
  ghost predicate HasMade(rules: set<Rule>, n: nat, number: Number) {
    forall l :: 0 <= l < |number.made| ==> Rule(n, number.made[l]) in rules
  }

  ghost predicate GoodNumbers(s: State) {
    forall n :: 0 <= n < |s.numbers| ==>
      && s.numbers[n].from <= s.version + 1
      && (s.numbers[n].from <= s.version ==> HasMade(s.rules, n, s.numbers[n]))
      && (s.numbers[n].from == s.version + 1 ==>
          s.writer.Adding? && s.writer.job.version.Some? && n == s.writer.job.num)
  }

  /** What was there when a call began is still there, and complete for the numbers visible to the call. */
  ghost predicate GoodStart(s: State, version: nat, start: set<Bytes>, done: set<Rule>) {
    && version <= s.version && start <= s.paths && done <= s.rules
    && (forall r :: r in done ==> RecordedSet(start, s.hasAbsent, r.conds))
    && (forall n :: 0 <= n < |s.numbers| && s.numbers[n].from <= version ==> HasMade(done, n, s.numbers[n]))
  }

  /** A lookup that succeeds if these paths are known. */
  ghost predicate Sure(start: set<Bytes>, a: Lookups.Lookup) {
    match a
    case Enter(path, _) => exists p :: p in start && Paths.IsPrefix(path, p)
    case Look(base, _) => base != [] && Paths.WildPath(base) in start
    case Value(path, _, _) => path in start
  }

  /** If a succeeded, then b does later. */
  ghost predicate Implies(a: Lookups.Lookup, b: Lookups.Lookup) {
    match a
    case Enter(path, _) => false
    case Look(base, _) =>
      (b.Look? && b.path == base) || (b.Enter? && Paths.IsPrefix(b.path, Paths.WildPath(base)))
    case Value(path, _, _) => (b.Value? && b.path == path) || (b.Enter? && Paths.IsPrefix(b.path, path))
  }

  ghost predicate GoodFound(g: Setting, s: State)
    requires s.reader.Reading?
  {
    var found, table := s.reader.found, s.reader.table;
    && |found| <= |g.call| && table < |s.wilds|
    && (forall b: Bytes :: b != [] && Paths.WildPath(b) in s.reader.start ==> b in s.wilds[table])
    && (forall x :: 0 <= x < |found| && found[x] ==> Answer(s, table, g.call[x]))
    && (forall x :: 0 <= x < |found| && Sure(s.reader.start, g.call[x]) ==> found[x])
    && (forall x, y :: 0 <= x < y < |found| && found[x] && Implies(g.call[x], g.call[y]) ==> found[y])
  }

  ghost predicate GoodReader(g: Setting, s: State) {
    match s.reader
    case Outside => true
    case HasVersion(v, start, done) => GoodStart(s, v, start, done)
    case HasLimit(v, start, done, _) => GoodStart(s, v, start, done)
    case HasAbsent(v, start, done, _, absent) =>
      GoodStart(s, v, start, done) && forall r :: r in done ==> RecordedSet(start, absent, r.conds)
    case Reading(v, start, done, _, absent, _, _) =>
      && GoodStart(s, v, start, done) && GoodFound(g, s)
      && forall r :: r in done ==> RecordedSet(start, absent, r.conds)
  }

  ghost predicate Inv(g: Setting, s: State) {
    GoodPaths(s) && GoodRules(s) && GoodWriter(s) && GoodNumbers(s) && GoodReader(g, s)
  }

  lemma {:induction false} StartInv(g: Setting)
    ensures Inv(g, START)
  {
  }

  // ----------------------------------------------------- every step keeps it

  /** Tables only grow. */
  ghost predicate MoreWilds(s: State, s': State) {
    |s.wilds| <= |s'.wilds| && forall t :: 0 <= t < |s.wilds| ==> s.wilds[t] <= s'.wilds[t]
  }

  /** What a writer step does to what a call has loaded: it only adds. */
  ghost predicate Extends(s: State, s': State) {
    && s.paths <= s'.paths && s.prefixes <= s'.prefixes && MoreWilds(s, s') && (s.hasAbsent ==> s'.hasAbsent)
    && s.rules <= s'.rules && s.version <= s'.version && s.reader == s'.reader && s.numbers <= s'.numbers
    && forall n :: |s.numbers| <= n < |s'.numbers| ==> s'.numbers[n].from > s.version || s'.numbers[n].made == []
  }

  lemma {:induction false} RecordedMore(paths: set<Bytes>, paths': set<Bytes>, a: bool, b: bool, conds: seq<NCond>)
    requires RecordedSet(paths, a, conds) && paths <= paths' && (a ==> b)
    ensures RecordedSet(paths', b, conds)
  {
  }

  lemma {:induction false} StartKept(s: State, s': State, version: nat, start: set<Bytes>, done: set<Rule>)
    requires GoodStart(s, version, start, done) && Extends(s, s')
    ensures GoodStart(s', version, start, done)
  {
    forall r | r in done ensures RecordedSet(start, s'.hasAbsent, r.conds) {
      RecordedMore(start, start, s.hasAbsent, s'.hasAbsent, r.conds);
    }
    forall n | 0 <= n < |s'.numbers| && s'.numbers[n].from <= version ensures HasMade(done, n, s'.numbers[n]) {
      if n < |s.numbers| {
        assert s'.numbers[n] == s.numbers[n];
      }
    }
  }

  lemma {:induction false} FoundKept(g: Setting, s: State, s': State)
    requires s.reader.Reading? && GoodFound(g, s) && Extends(s, s')
    ensures GoodFound(g, s')
  {
    var table := s.reader.table;
    assert s.wilds[table] <= s'.wilds[table];
  }

  lemma {:induction false} ReaderKept(g: Setting, s: State, s': State)
    requires GoodReader(g, s) && Extends(s, s')
    ensures GoodReader(g, s')
  {
    if !s.reader.Outside? {
      StartKept(s, s', s.reader.version, s.reader.start, s.reader.done);
    }
    if s.reader.Reading? {
      FoundKept(g, s, s');
    }
  }

  lemma {:induction false} RulesKept(s: State, s': State)
    requires GoodRules(s) && s'.rules == s.rules && s.paths <= s'.paths && (s.hasAbsent ==> s'.hasAbsent)
    requires |s.numbers| <= |s'.numbers|
    ensures GoodRules(s')
  {
    forall r | r in s'.rules ensures r.num < |s'.numbers| && RecordedSet(s'.paths, s'.hasAbsent, r.conds) {
      RecordedMore(s.paths, s'.paths, s.hasAbsent, s'.hasAbsent, r.conds);
    }
  }

  lemma {:induction false} SameWilds(s: State, s': State)
    requires s.wilds == s'.wilds
    ensures MoreWilds(s, s') && Current(s') == Current(s)
  {
  }

  /** A step that leaves the tables of paths alone, and the path that is being added. */
  lemma {:induction false} PathsKept(s: State, s': State)
    requires GoodPaths(s) && s'.paths == s.paths && s.prefixes == s'.prefixes && s'.wilds == s.wilds
    requires forall b :: b in Current(s) && IsNext(s, b) && Paths.WildPath(b) !in s.paths ==> IsNext(s', b)
    ensures GoodPaths(s')
  {
    assert Current(s') == Current(s);
    forall b | b in Current(s') ensures GoodWild(s', b) {
      assert GoodWild(s, b);
    }
    forall p | p in s'.paths ensures GoodPath(s', p) {
      assert GoodPath(s, p);
    }
  }

  lemma {:induction false} StartAddKeeps(g: Setting, s: State, s': State, num: nat, sets: seq<seq<NCond>>)
    requires Inv(g, s) && StartAddOf(s, s', num, sets)
    ensures Inv(g, s')
  {
    PathsKept(s, s');
    SameWilds(s, s');
    RulesKept(s, s');
    ReaderKept(g, s, s');
    forall n | 0 <= n < |s.numbers| ensures s'.numbers[n] == s.numbers[n] {
    }
  }

  lemma {:induction false} StartReplaceKeeps(g: Setting, s: State, s': State, sets: seq<seq<NCond>>)
    requires Inv(g, s) && StartReplaceOf(s, s', sets)
    ensures Inv(g, s')
  {
    PathsKept(s, s');
    SameWilds(s, s');
    RulesKept(s, s');
    ReaderKept(g, s, s');
    forall n | 0 <= n < |s.numbers| ensures s'.numbers[n] == s.numbers[n] {
    }
  }

  /** A step of addPath adds to the tables, and perhaps goes on to the next condition. */
  lemma {:induction false} AddsPathKeeps(g: Setting, s: State, s': State)
    requires Inv(g, s) && HasNext(s) && GoodPaths(s') && Extends(s, s')
    requires s' == s.(paths := s'.paths, prefixes := s'.prefixes, wilds := s'.wilds, hasAbsent := s'.hasAbsent,
                      writer := s'.writer)
    requires s'.writer == s.writer ||
             (s'.writer == NextDone(s) && NextCond(s).path in s'.paths && (NextCond(s).expr.Absent? ==> s.hasAbsent))
    ensures Inv(g, s')
  {
    RulesKept(s, s');
    ReaderKept(g, s, s');
    var conds, i := s.writer.job.sets[s.writer.k], s.writer.i;
    RecordedMore(s.paths, s'.paths, s.hasAbsent, s'.hasAbsent, conds[..i]);
    TakeNext(conds, i);
  }

  lemma {:induction false} SetAbsentKeeps(g: Setting, s: State, s': State)
    requires Inv(g, s) && SetAbsent(s, s')
    ensures Inv(g, s')
  {
    PathsKept(s, s');
    SameWilds(s, s');
    AddsPathKeeps(g, s, s');
  }

  lemma {:induction false} SkipPathKeeps(g: Setting, s: State, s': State)
    requires Inv(g, s) && SkipPath(s, s')
    ensures Inv(g, s')
  {
    PathsKept(s, s');
    SameWilds(s, s');
    AddsPathKeeps(g, s, s');
  }

  lemma {:induction false} PrefixesMore(prefixes: set<Bytes>, prefixes': set<Bytes>, p: Bytes)
    requires PrefixesKnown(prefixes, p) && prefixes <= prefixes'
    ensures PrefixesKnown(prefixes', p)
  {
  }

  /** More is stored, for the path that is being added. */
  lemma {:induction false} PathsMore(s: State, s': State)
    requires GoodPaths(s) && s'.wilds != [] && s.paths <= s'.paths && s.prefixes <= s'.prefixes
    requires Current(s) <= Current(s')
    requires forall b :: b in Current(s) && IsNext(s, b) && Paths.WildPath(b) !in s'.paths ==> IsNext(s', b)
    ensures forall p :: p in s.paths ==> GoodPath(s', p)
    ensures forall b :: b in Current(s) ==> GoodWild(s', b)
  {
    forall p | p in s.paths ensures GoodPath(s', p) {
      assert GoodPath(s, p);
      PrefixesMore(s.prefixes, s'.prefixes, p);
    }
    forall b | b in Current(s) ensures GoodWild(s', b) {
      assert GoodWild(s, b);
      PrefixesMore(s.prefixes, s'.prefixes, Paths.WildPath(b));
    }
  }

  lemma {:induction false} StorePrefixKeeps(g: Setting, s: State, s': State)
    requires Inv(g, s) && StorePrefix(s, s')
    ensures Inv(g, s')
  {
    PathsMore(s, s');
    SameWilds(s, s');
    AddsPathKeeps(g, s, s');
  }

  /** When the table is replaced, all of its paths are known: the one that is being added is not in it yet. */
  lemma {:induction false} GrowWildsKeeps(g: Setting, s: State, s': State)
    requires Inv(g, s) && GrowWilds(s, s')
    ensures Inv(g, s')
  {
    PathsMore(s, s');
    var b :| AddsWild(s, b);
    forall c | c in Current(s) ensures Paths.WildPath(c) in s.paths {
      assert GoodWild(s, c);
      Paths.WildPathInjective(b, c);
    }
    assert Current(s') == Current(s);
    AddsPathKeeps(g, s, s');
  }

  lemma {:induction false} StoreWildKeeps(g: Setting, s: State, s': State)
    requires Inv(g, s) && StoreWild(s, s')
    ensures Inv(g, s')
  {
    var b :| StoreWildOf(s, s', b);
    PathsMore(s, s');
    assert GoodWild(s', b);
    AddsPathKeeps(g, s, s');
  }

  lemma {:induction false} StorePathKeeps(g: Setting, s: State, s': State)
    requires Inv(g, s) && StorePath(s, s')
    ensures Inv(g, s')
  {
    var p :| StorePathOf(s, s', p);
    PathsMore(s, s');
    SameWilds(s, s');
    AddsPathKeeps(g, s, s');
  }

  lemma {:induction false} CompleteKeeps(g: Setting, s: State, s': State)
    requires Inv(g, s) && Complete(s, s')
    ensures Inv(g, s')
  {
    var job, k := s.writer.job, s.writer.k;
    PathsKept(s, s');
    SameWilds(s, s');
    TakeAll(job.sets[k]);
    ReaderKept(g, s, s');
    forall n | 0 <= n < |s'.numbers| && s'.numbers[n].from <= s'.version ensures HasMade(s'.rules, n, s'.numbers[n]) {
      assert HasMade(s.rules, n, s.numbers[n]);
    }
  }

  lemma {:induction false} FinishKeeps(g: Setting, s: State, s': State)
    requires Inv(g, s) && Finish(s, s')
    ensures Inv(g, s')
  {
    PathsKept(s, s');
    SameWilds(s, s');
    RulesKept(s, s');
    ReaderKept(g, s, s');
    forall n | 0 <= n < |s'.numbers| && s'.numbers[n].from <= s'.version ensures HasMade(s'.rules, n, s'.numbers[n]) {
      if s.numbers[n].from == s.version + 1 {
        assert n == s.writer.job.num;
      }
    }
  }

  lemma {:induction false} LoadsKeep(g: Setting, s: State, s': State)
    requires Inv(g, s) && Loads(s, s')
    ensures Inv(g, s')
  {
    PathsKept(s, s');
    RulesKept(s, s');
    if LoadWilds(s, s') {
      forall b: Bytes | b != [] && Paths.WildPath(b) in s.reader.start ensures b in Current(s) {
        assert GoodPath(s, Paths.WildPath(b));
      }
    }
  }

  /** What a sure lookup asks for is there. */
  lemma {:induction false} SureAnswer(g: Setting, s: State, a: Lookups.Lookup)
    requires Inv(g, s) && s.reader.Reading? && Sure(s.reader.start, a)
    ensures Answer(s, s.reader.table, a)
  {
    if a.Enter? {
      var p :| p in s.reader.start && Paths.IsPrefix(a.path, p);
      assert GoodPath(s, p);
    }
  }

  lemma {:induction false} ImpliedAnswer(g: Setting, s: State, a: Lookups.Lookup, b: Lookups.Lookup)
    requires Inv(g, s) && s.reader.Reading? && Answer(s, s.reader.table, a) && Implies(a, b)
    ensures Answer(s, s.reader.table, b)
  {
    match a
    case Look(base, _) =>
      assert s.reader.table < |s.wilds| - 1 || s.wilds[s.reader.table] == Current(s);
      assert GoodWild(s, base);
    case Value(path, _, _) => assert GoodPath(s, path);
    case _ =>
  }

  lemma {:induction false} LookUpKeeps(g: Setting, s: State, s': State)
    requires Inv(g, s) && LookUp(g, s, s')
    ensures Inv(g, s')
  {
    PathsKept(s, s');
    RulesKept(s, s');
    FoundMore(g, s, s');
  }

  lemma {:induction false} FoundMore(g: Setting, s: State, s': State)
    requires Inv(g, s) && LookUp(g, s, s')
    ensures GoodFound(g, s')
  {
    var found, more, n := s.reader.found, s'.reader.found, |s.reader.found|;
    forall x | 0 <= x < |more| && Sure(s.reader.start, g.call[x]) ensures more[x] {
      if x == n {
        SureAnswer(g, s, g.call[n]);
      }
    }
    forall x, y | 0 <= x < y < |more| && more[x] && Implies(g.call[x], g.call[y]) ensures more[y] {
      assert more[x] == found[x];
      if y == n {
        ImpliedAnswer(g, s, g.call[x], g.call[n]);
      }
    }
    assert forall x :: 0 <= x < |more| && more[x] ==> Answer(s, s.reader.table, g.call[x]);
  }

  lemma {:induction false} AddingKeeps(g: Setting, s: State, s': State)
    requires Inv(g, s) && AddsPath(s, s')
    ensures Inv(g, s')
  {
    if SetAbsent(s, s') {
      SetAbsentKeeps(g, s, s');
    } else if SkipPath(s, s') {
      SkipPathKeeps(g, s, s');
    } else if StorePrefix(s, s') {
      StorePrefixKeeps(g, s, s');
    } else if GrowWilds(s, s') {
      GrowWildsKeeps(g, s, s');
    } else if StoreWild(s, s') {
      StoreWildKeeps(g, s, s');
    } else {
      StorePathKeeps(g, s, s');
    }
  }

  /** Every step of the writer and of the call keeps the invariant. */
  lemma {:induction false} NextKeeps(g: Setting, s: State, s': State)
    requires Inv(g, s) && Next(g, s, s')
    ensures Inv(g, s')
  {
    if StartAdd(s, s') {
      var num: nat, sets :| StartAddOf(s, s', num, sets);
      StartAddKeeps(g, s, s', num, sets);
    } else if StartReplace(s, s') {
      var sets :| StartReplaceOf(s, s', sets);
      StartReplaceKeeps(g, s, s', sets);
    } else if AddsPath(s, s') {
      AddingKeeps(g, s, s');
    } else if Complete(s, s') {
      CompleteKeeps(g, s, s');
    } else if Finish(s, s') {
      FinishKeeps(g, s, s');
    } else if Loads(s, s') {
      LoadsKeep(g, s, s');
    } else {
      LookUpKeeps(g, s, s');
    }
  }

  // -------------------------------------------------------- what is gathered

  lemma {:induction false} RefersIs(p: Bytes, q: Bytes)
    ensures Rules.RefersTo(p, q) <==>
            q == p || exists b: Bytes :: b != [] && p == Paths.WildPath(b) && Paths.IsPrefix(b, q)
  {
    Paths.WildBaseOf(p);
    if b: Bytes :| b != [] && p == Paths.WildPath(b) && Paths.IsPrefix(b, q) {
      assert Rules.WildBase(p) == Some(b);
    }
    if Rules.RefersTo(p, q) && q != p {
      var b := Rules.WildBase(p).value;
      assert q[..|b|] == b;
    }
  }

  /** The positions of the values a condition on p refers to. */
  ghost function Referring(call: Lookups.Call, p: Bytes): set<nat> {
    set i: nat | i < |call| && call[i].Value? && Rules.RefersTo(p, call[i].path)
  }

  lemma {:induction false} ValuesSnoc(event: Rules.Event, q: Rules.Property, p: Bytes)
    ensures Rules.ValuesAt(event + [q], p) ==
            Rules.ValuesAt(event, p) + if Rules.RefersTo(p, q.path) then q.values else []
  {
    JsonRecords.ValuesAtConcat(event, [q], p);
    assert [q][1..] == [];
  }

  lemma {:induction false} CollectReferring(call: Lookups.Call, p: Bytes, n: nat)
    requires n <= |call|
    ensures Collect(call, Referring(call, p), n) == Rules.ValuesAt(Lookups.EventOf(call[..n]), p)
  {
    if n > 0 {
      CollectReferring(call, p, n - 1);
      var a := call[n - 1];
      assert call[..n] == call[..n - 1] + [a];
      Lookups.EventSnoc(call[..n - 1], a);
      if a.Value? {
        ValuesSnoc(Lookups.EventOf(call[..n - 1]), Rules.Property(a.path, a.values), p);
      } else {
        assert Lookups.EventOf(call[..n - 1]) + [] == Lookups.EventOf(call[..n - 1]);
      }
    }
  }

  lemma {:induction false} NaiveValues(g: Setting, p: Bytes)
    ensures Collect(g.call, Referring(g.call, p), |g.call|) == Rules.ValuesAt(EventOf(g), p)
  {
    CollectReferring(g.call, p, |g.call|);
    TakeAll(g.call);
  }

  /** Nothing is gathered for a path that does not refer to it. */
  lemma {:induction false} KeepsRefers(g: Setting, found: seq<bool>, p: Bytes, i: nat)
    requires GoodSetting(g) && Keeps(g, found, p, i)
    ensures i in Referring(g.call, p)
  {
    RefersIs(p, g.call[i].path);
    if g.call[i].path != p {
      var x :| x in g.call[i].outer && x < |g.call| && x < |found| && LooksFor(g.call[x], p) && found[x];
      Lookups.OuterOf(g.call, i, x);
    }
  }

  /** Inside of an open wildcard path everything is recorded. */
  lemma {:induction false} RecordedInside(g: Setting, found: seq<bool>, x: nat, i: nat)
    requires GoodSetting(g) && i < |g.call| && x in g.call[i].outer && x < |g.call| && x < |found|
    requires g.call[x].Look? && found[x] && Recorded(g, found, x)
    ensures Recorded(g, found, i)
  {
    Lookups.OuterOf(g.call, i, x);
    forall e | e in g.call[i].outer && e < |g.call| && g.call[e].Enter?
      ensures (e < |found| && found[e]) || Below(g, found, e)
    {
      if e < x {
        assert e in g.call[x].outer;
      } else {
        Lookups.OuterOf(g.call, i, e);
        assert x in g.call[e].outer;
      }
    }
  }

  /** All objects around a path are entered if the path is known. */
  lemma {:induction false} KnownRecorded(g: Setting, s: State, p: Bytes, i: nat)
    requires GoodSetting(g) && Inv(g, s) && Ready(g, s) && p in s.reader.start && i < |g.call|
    requires (g.call[i].Value? && g.call[i].path == p) || LooksFor(g.call[i], p)
    ensures Recorded(g, s.reader.found, i)
  {
    forall e | e in g.call[i].outer && e < |g.call| && g.call[e].Enter? ensures e < |g.call| && s.reader.found[e] {
      Lookups.OuterOf(g.call, i, e);
      EnclosingPrefix(g.call[e], g.call[i], p);
      assert Sure(s.reader.start, g.call[e]);
    }
  }

  /** The path of an object around a value or a wildcard lookup is a prefix of the path looked for. */
  lemma {:induction false} EnclosingPrefix(e: Lookups.Lookup, a: Lookups.Lookup, p: Bytes)
    requires Lookups.Inside(e, a) && e.Enter? && (LooksFor(a, p) || (a.path == p && !a.Look?))
    ensures Paths.IsPrefix(e.path, p)
  {
    if LooksFor(a, p) {
      assert p[..|e.path|] == a.path[..|e.path|];
    }
  }

  /** For a path that was known when the call began, exactly the values it refers to are gathered. */
  lemma {:induction false} KnownKept(g: Setting, s: State, p: Bytes, i: nat)
    requires GoodSetting(g) && Inv(g, s) && Ready(g, s) && p in s.reader.start && i in Referring(g.call, p)
    ensures Keeps(g, s.reader.found, p, i)
  {
    var q := g.call[i].path;
    RefersIs(p, q);
    if q == p {
      KnownRecorded(g, s, p, i);
      assert Sure(s.reader.start, g.call[i]);
    } else {
      var b: Bytes :| b != [] && p == Paths.WildPath(b) && Paths.IsPrefix(b, q);
      var x := Lookups.DotLooked(g.call, i, b);
      assert Sure(s.reader.start, g.call[x]);
      KnownRecorded(g, s, p, x);
      RecordedInside(g, s.reader.found, x, i);
    }
  }

  lemma {:induction false} KnownGathered(g: Setting, s: State, p: Bytes)
    requires GoodSetting(g) && Inv(g, s) && Ready(g, s) && p in s.reader.start
    ensures Gathered(g, s.reader.found, p) == Rules.ValuesAt(EventOf(g), p)
  {
    NaiveValues(g, p);
    forall i: nat ensures i in Kept(g, s.reader.found, p) <==> i in Referring(g.call, p) {
      if i in Kept(g, s.reader.found, p) {
        KeepsRefers(g, s.reader.found, p, i);
      }
      if i in Referring(g.call, p) {
        KnownKept(g, s, p, i);
      }
    }
    assert Kept(g, s.reader.found, p) == Referring(g.call, p);
  }

  /**
   * Rules that were complete when the call began are followed exactly if they hold, whatever the
   * writer does meanwhile.
   */
  lemma {:induction false} DoneExact(g: Setting, s: State, r: Rule)
    requires GoodSetting(g) && Inv(g, s) && Ready(g, s) && r in s.reader.done
    ensures Follows(g, s, r.conds) <==> SetHolds(g.w, r.conds, EventOf(g))
  {
    assert RecordedSet(s.reader.start, s.reader.absent, r.conds);
    forall c | c in r.conds ensures CondFollowed(g, s, c) <==> CondHoldsOn(g.w, c, EventOf(g)) {
      KnownGathered(g, s, c.path);
    }
  }

  // -------------------------------------------------------------------- runs

  ghost predicate IsRun(g: Setting, run: seq<State>) {
    run != [] && run[0] == START && forall i :: 0 <= i < |run| - 1 ==> Next(g, run[i], run[i + 1])
  }

  lemma {:induction false} RunKeeps(g: Setting, run: seq<State>, i: nat)
    requires IsRun(g, run) && i < |run|
    ensures Inv(g, run[i])
  {
    if i == 0 {
      StartInv(g);
    } else {
      RunKeeps(g, run, i - 1);
      assert Next(g, run[i - 1], run[i - 1 + 1]);
      NextKeeps(g, run[i - 1], run[i]);
    }
  }

  /**
   * What ReplaceRule created a visible number with is followed exactly if it holds: all its paths
   * were known in time.
   */
  lemma {:induction false} ReplacedExact(g: Setting, run: seq<State>, i: nat, n: nat, l: nat)
    requires GoodSetting(g) && IsRun(g, run) && i < |run| && Ready(g, run[i]) && Visible(run[i], n)
    requires l < |run[i].numbers[n].made|
    ensures var conds := run[i].numbers[n].made[l];
            && RecordedSet(run[i].reader.start, run[i].reader.absent, conds)
            && (Follows(g, run[i], conds) <==> SetHolds(g.w, conds, EventOf(g)))
  {
    var s := run[i];
    RunKeeps(g, run, i);
    assert HasMade(s.reader.done, n, s.numbers[n]);
    DoneExact(g, s, Rule(n, s.numbers[n].made[l]));
  }

  /** The call can get into state s. */
  ghost predicate Reaches(g: Setting, s: State) {
    exists run :: IsRun(g, run) && run[|run| - 1] == s
  }

  lemma {:induction false} ReachedInv(g: Setting, s: State)
    requires Reaches(g, s)
    ensures Inv(g, s)
  {
    var run :| IsRun(g, run) && run[|run| - 1] == s;
    RunKeeps(g, run, |run| - 1);
  }

  lemma {:induction false} ReachStart(g: Setting)
    ensures Reaches(g, START)
  {
    var run := [START];
    assert IsRun(g, run) && run[|run| - 1] == START;
  }

  lemma {:induction false} ReachNext(g: Setting, s: State, s': State)
    requires Reaches(g, s) && Next(g, s, s')
    ensures Reaches(g, s')
  {
    var run :| IsRun(g, run) && run[|run| - 1] == s;
    var more := run + [s'];
    forall i | 0 <= i < |more| - 1 ensures Next(g, more[i], more[i + 1]) {
      if i + 1 < |run| {
        assert more[i] == run[i] && more[i + 1] == run[i + 1];
      } else {
        assert more[i] == s && more[i + 1] == s';
      }
    }
    assert IsRun(g, more);
  }

  // -------------------------------------------- conditions that never go wrong

  lemma {:induction false} SubsCanonical(e: Expr, s: Expr)
    requires Canonical(e) && e.Nary? && s in e.subs
    ensures Canonical(s)
  {
  }

  /** More values never make a condition without negation fail. */
  lemma {:induction false} HoldsForMore(w: World, e: Expr, vs: seq<Bytes>, us: seq<Bytes>)
    requires Canonical(e) && Formulas.Monotone(e) && Holds(w, e, vs) && forall v :: v in vs ==> v in us
    ensures Holds(w, e, us)
    decreases e
  {
    if e.Nary? {
      forall s | s in e.subs && Holds(w, s, vs) ensures Holds(w, s, us) {
        SubsCanonical(e, s);
        HoldsForMore(w, s, vs, us);
      }
    }
  }

  lemma {:induction false} CollectFewer(call: Lookups.Call, a: set<nat>, b: set<nat>, n: nat)
    requires n <= |call| && a <= b
    ensures forall v :: v in Collect(call, a, n) ==> v in Collect(call, b, n)
  {
    if n > 0 {
      CollectFewer(call, a, b, n - 1);
    }
  }

  lemma {:induction false} FoldFewer(w: World, vs: seq<Bytes>, us: seq<Bytes>)
    requires forall v :: v in vs ==> v in us
    ensures forall v :: v in Rules.FoldAll(w, vs) ==> v in Rules.FoldAll(w, us)
  {
    var fs, gs := Rules.FoldAll(w, vs), Rules.FoldAll(w, us);
    forall v | v in fs ensures v in gs {
      var i :| 0 <= i < |fs| && fs[i] == v;
      assert vs[i] in us;
      var k :| 0 <= k < |us| && us[k] == vs[i];
      assert gs[k] == v;
    }
  }

  /** A condition without negation that needs the property is never followed wrongly. */
  lemma {:induction false} PositiveNeverWrong(g: Setting, s: State, c: NCond)
    requires GoodSetting(g) && Reaches(g, s) && Ready(g, s)
    requires WellFormed(c) && !c.expr.Absent? && Formulas.Monotone(c.expr) && CondFollowed(g, s, c)
    ensures CondHoldsOn(g.w, c, EventOf(g))
  {
    var found, p := s.reader.found, c.path;
    NaiveValues(g, p);
    forall i | i in Kept(g, found, p) ensures i in Referring(g.call, p) {
      KeepsRefers(g, found, p, i);
    }
    CollectFewer(g.call, Kept(g, found, p), Referring(g.call, p), |g.call|);
    var vs, us := Rules.FoldAll(g.w, Gathered(g, found, p)), Rules.FoldedAt(g.w, EventOf(g), p);
    FoldFewer(g.w, Gathered(g, found, p), Rules.ValuesAt(EventOf(g), p));
    assert vs[0] in us;
    HoldsForMore(g.w, c.expr, vs, us);
  }

  /** Match gathers the values of a property for its own path even if no rule refers to it. */
  lemma {:induction false} DirectGathered(g: Setting, found: seq<bool>, p: Bytes)
    requires GoodSetting(g) && g.direct && Rules.WildBase(p).None?
    ensures Gathered(g, found, p) == Rules.ValuesAt(EventOf(g), p)
  {
    NaiveValues(g, p);
    Paths.WildBaseOf(p);
    forall i: nat ensures i in Kept(g, found, p) <==> i in Referring(g.call, p) {
      if i in Kept(g, found, p) {
        KeepsRefers(g, found, p, i);
      }
      if i in Referring(g.call, p) {
        RefersIs(p, g.call[i].path);
        assert Recorded(g, found, i);
      }
    }
    assert Kept(g, found, p) == Referring(g.call, p);
  }

  /** Match never follows a condition wrongly unless its path ends in a wildcard. */
  lemma {:induction false} DirectNeverWrong(g: Setting, s: State, c: NCond)
    requires GoodSetting(g) && Reaches(g, s) && Ready(g, s)
    requires g.direct && Rules.WildBase(c.path).None? && CondFollowed(g, s, c)
    ensures CondHoldsOn(g.w, c, EventOf(g))
  {
    DirectGathered(g, s.reader.found, c.path);
  }
}
