/**
 * ReplaceRule against one concurrent Match call, as interleaved atomic steps
 * (ReplaceRule and begin in hypermatch.go, list and ruleMeta in concurrent.go).
 * Rule numbers replaced one after another form a chain, which is named after
 * its first number.
 */
module ReplaceProtocol {

  /** One array of ruleMeta. Beyond its end, and where nothing was stored, all words are 0. */
  datatype Span = Span(from: nat, until: nat)
  datatype Words = Words(spans: seq<Span>, orders: seq<nat>)

  function FromAt(a: Words, n: nat): nat {
    if n < |a.spans| then a.spans[n].from else 0
  }

  function UntilAt(a: Words, n: nat): nat {
    if n < |a.spans| then a.spans[n].until else 0
  }

  /** metaOrder: order words hold 1 + the order key, or 0 for the number itself. */
  function OrderAt(a: Words, n: nat): nat {
    if n < |a.orders| && a.orders[n] != 0 then a.orders[n] - 1 else n
  }

  predicate VisibleAt(a: Words, version: nat, n: nat) {
    FromAt(a, n) <= version && (UntilAt(a, n) == 0 || version < UntilAt(a, n))
  }

  /** What ReplaceRule computed before its first store. */
  datatype Job = Job(old_: nat, num: nat, from: nat, order: nat, v: nat)

  /** What ReplaceRule has done so far, in the order of its stores. */
  datatype Writer =
    | Idle
    | Planned(job: Job)
    | Sized(job: Job)          // the array has room for num
    | SpanSet(job: Job)        // num is visible from v on
    | OrderSet(job: Job)
    | Listed(job: Job)         // num is published in ids
    | Inserted(job: Job)       // all condition sets of num are in the trie
    | OldSpanSet(job: Job)     // old is visible until v
    | OldOrderSet(job: Job)

  /** What begin has loaded so far, in this order: the version, the number of ids, an array. */
  datatype Reader =
    | Outside
    | HasVersion(version: nat)
    | HasLimit(version: nat, limit: nat)
    | Ready(version: nat, limit: nat, array_: nat)

  /** chain holds the chain of every published number; the last array is the current one. */
  datatype State = State(version: nat, chain: seq<nat>, arrays: seq<Words>, inserted: set<nat>, writer: Writer,
                         reader: Reader)

  function Current(s: State): Words
    requires s.arrays != []
  {
    s.arrays[|s.arrays| - 1]
  }

  function WithCurrent(s: State, a: Words): State
    requires s.arrays != []
  {
    s.(arrays := s.arrays[|s.arrays| - 1 := a])
  }

  // ------------------------------------------------------------------ steps

  const START := State(0, [], [Words([], [])], {}, Idle, Outside)

  function Grown(a: Words, size: nat): Words
    requires |a.spans| <= size && |a.orders| <= size
  {
    Words(a.spans + seq(size - |a.spans|, _ => Span(0, 0)), a.orders + seq(size - |a.orders|, _ => 0))
  }

  /** AddRule publishes the number of a new identifier. Its condition sets follow in any order. */
  ghost predicate Add(s: State, s': State) {
    s.writer.Idle? && s' == s.(chain := s.chain + [|s.chain|])
  }

  ghost predicate Plan(s: State, s': State) {
    exists o: nat :: PlanFor(s, s', o)
  }

  /** ReplaceRule reads the span and the order key of the present number of an identifier. */
  ghost predicate PlanFor(s: State, s': State, o: nat) {
    && s.writer.Idle? && s.arrays != [] && o < |s.chain| && UntilAt(Current(s), o) == 0
    && s' == s.(writer := Planned(Job(o, |s.chain|, FromAt(Current(s), o), OrderAt(Current(s), o), s.version + 1)))
  }

  /** set grows the array if num does not fit: the writer publishes a longer copy. */
  ghost predicate Size(s: State, s': State) {
    && s.writer.Planned? && s.arrays != []
    && if s.writer.job.num < |Current(s).spans| then s' == s.(writer := Sized(s.writer.job))
       else exists size: nat :: SizeTo(s, s', size)
  }

  ghost predicate SizeTo(s: State, s': State, size: nat)
    requires s.writer.Planned? && s.arrays != []
  {
    && |Current(s).spans| <= s.writer.job.num < size && |Current(s).orders| <= size
    && s' == s.(arrays := s.arrays + [Grown(Current(s), size)], writer := Sized(s.writer.job))
  }

  predicate HasRoom(s: State, n: nat) {
    s.arrays != [] && n < |Current(s).spans| == |Current(s).orders|
  }

  function SetSpan(a: Words, n: nat, span: Span): Words
    requires n < |a.spans|
  {
    a.(spans := a.spans[n := span])
  }

  function SetOrder(a: Words, n: nat, order: nat): Words
    requires n < |a.orders|
  {
    a.(orders := a.orders[n := order + 1])
  }

  ghost predicate StoreSpan(s: State, s': State) {
    s.writer.Sized? && HasRoom(s, s.writer.job.num) &&
    var j := s.writer.job;
    s' == WithCurrent(s, SetSpan(Current(s), j.num, Span(j.v, 0))).(writer := SpanSet(j))
  }

  ghost predicate StoreOrder(s: State, s': State) {
    s.writer.SpanSet? && HasRoom(s, s.writer.job.num) &&
    var j := s.writer.job;
    s' == WithCurrent(s, SetOrder(Current(s), j.num, j.order)).(writer := OrderSet(j))
  }

  /** ids.add */
  ghost predicate List(s: State, s': State) {
    s.writer.OrderSet? && s.writer.job.old_ < |s.chain| &&
    var j := s.writer.job;
    s' == s.(chain := s.chain + [s.chain[j.old_]], writer := Listed(j))
  }

  ghost predicate Insert(s: State, s': State) {
    s.writer.Listed? && s' == s.(inserted := s.inserted + {s.writer.job.num}, writer := Inserted(s.writer.job))
  }

  ghost predicate StoreOldSpan(s: State, s': State) {
    s.writer.Inserted? && HasRoom(s, s.writer.job.old_) &&
    var j := s.writer.job;
    s' == WithCurrent(s, SetSpan(Current(s), j.old_, Span(j.from, j.v))).(writer := OldSpanSet(j))
  }

  ghost predicate StoreOldOrder(s: State, s': State) {
    s.writer.OldSpanSet? && HasRoom(s, s.writer.job.old_) &&
    var j := s.writer.job;
    s' == WithCurrent(s, SetOrder(Current(s), j.old_, j.order)).(writer := OldOrderSet(j))
  }

  ghost predicate Publish(s: State, s': State) {
    s.writer.OldOrderSet? && s' == s.(version := s.writer.job.v, writer := Idle)
  }

  ghost predicate LoadVersion(s: State, s': State) {
    s.reader.Outside? && s' == s.(reader := HasVersion(s.version))
  }

  ghost predicate LoadIds(s: State, s': State) {
    s.reader.HasVersion? && s' == s.(reader := HasLimit(s.reader.version, |s.chain|))
  }

  ghost predicate LoadMeta(s: State, s': State) {
    s.reader.HasLimit? && s.arrays != [] &&
    s' == s.(reader := Ready(s.reader.version, s.reader.limit, |s.arrays| - 1))
  }

  ghost predicate Leave(s: State, s': State) {
    s.reader.Ready? && s' == s.(reader := Outside)
  }

  ghost predicate Writes(s: State, s': State) {
    || Add(s, s') || Plan(s, s') || Size(s, s') || StoreSpan(s, s') || StoreOrder(s, s') || List(s, s')
    || Insert(s, s') || StoreOldSpan(s, s') || StoreOldOrder(s, s') || Publish(s, s')
  }

  ghost predicate Next(s: State, s': State) {
    Writes(s, s') || LoadVersion(s, s') || LoadIds(s, s') || LoadMeta(s, s') || Leave(s, s')
  }

  // -------------------------------------------------------------- invariant

  /** num is published but not visible to any version published so far. */
  predicate Pending(s: State, n: nat) {
    (s.writer.Listed? || s.writer.Inserted? || s.writer.OldSpanSet? || s.writer.OldOrderSet?) && n == s.writer.job.num
  }

  predicate Retired(s: State) {
    s.writer.OldSpanSet? || s.writer.OldOrderSet?
  }

  ghost predicate GoodJob(s: State)
    requires s.arrays != []
  {
    s.writer.Idle? ||
    var j, a := s.writer.job, Current(s);
    && j.v == s.version + 1 && j.old_ < j.num && j.old_ < |s.chain| && j.order == s.chain[j.old_]
    && j.num == (if Pending(s, j.num) then |s.chain| - 1 else |s.chain|)
    && j.from == FromAt(a, j.old_) && UntilAt(a, j.old_) == (if Retired(s) then j.v else 0)
    && (!s.writer.Planned? ==> HasRoom(s, j.num))
    && (Pending(s, j.num) ==> s.chain[j.num] == s.chain[j.old_])
    && (s.writer.SpanSet? || s.writer.OrderSet? || Pending(s, j.num) ==>
        FromAt(a, j.num) == j.v && UntilAt(a, j.num) == 0)
    && (s.writer.OrderSet? || Pending(s, j.num) ==> OrderAt(a, j.num) == j.order)
    && (s.writer.Inserted? || Retired(s) ==> j.num in s.inserted)
  }

  /** What is stored for the published number n. */
  ghost predicate GoodNumber(s: State, n: nat)
    requires s.arrays != [] && n < |s.chain|
  {
    var a := Current(s);
    && s.chain[n] <= n && s.chain[s.chain[n]] == s.chain[n] && OrderAt(a, n) == s.chain[n]
    && FromAt(a, s.chain[n]) == 0 && (n != s.chain[n] ==> FromAt(a, n) > 0)
    && (!Pending(s, n) ==> FromAt(a, n) <= s.version && (FromAt(a, n) > 0 ==> n in s.inserted))
    && UntilAt(a, n) <= s.version + (if Retired(s) then 1 else 0)
    && (UntilAt(a, n) != 0 ==> FromAt(a, n) < UntilAt(a, n) && HasSuccessor(s, n))
  }

  ghost predicate HasSuccessor(s: State, n: nat)
    requires s.arrays != [] && n < |s.chain|
  {
    exists m :: n < m < |s.chain| && s.chain[m] == s.chain[n] && FromAt(Current(s), m) == UntilAt(Current(s), n)
  }

  /** Of two numbers of a chain, one ends before the other one begins. */
  ghost predicate Apart(s: State, n: nat, m: nat)
    requires s.arrays != []
  {
    var a := Current(s);
    (UntilAt(a, n) != 0 && UntilAt(a, n) <= FromAt(a, m)) || (UntilAt(a, m) != 0 && UntilAt(a, m) <= FromAt(a, n))
  }

  ghost predicate SameChain(s: State, n: nat, m: nat) {
    n < |s.chain| && m < |s.chain| && n != m && s.chain[n] == s.chain[m] && !Pending(s, n) && !Pending(s, m)
  }

  /**
   * For all numbers it knows, an array a reader has loaded answers like the current one, at the
   * version of the reader.
   */
  ghost predicate Accurate(s: State, a: Words, version: nat, n: nat)
    requires s.arrays != []
  {
    var c := Current(s);
    && FromAt(a, n) == FromAt(c, n) && OrderAt(a, n) == OrderAt(c, n)
    && (UntilAt(a, n) == UntilAt(c, n) || (UntilAt(a, n) == 0 && UntilAt(c, n) > version))
  }

  /** Everything visible at the version of the reader is below its limit. */
  ghost predicate Within(s: State, version: nat, limit: nat)
    requires s.arrays != []
  {
    limit <= |s.chain| && forall n: nat :: n < |s.chain| && n != s.chain[n] && FromAt(Current(s), n) <= version ==>
                            n < limit
  }

  ghost predicate GoodReader(s: State)
    requires s.arrays != []
  {
    match s.reader
    case Outside => true
    case HasVersion(v) => v <= s.version
    case HasLimit(v, l) => v <= s.version && Within(s, v, l)
    case Ready(v, l, a) =>
      && v <= s.version && Within(s, v, l) && a < |s.arrays|
      && forall n: nat :: n < l ==> Accurate(s, s.arrays[a], v, n)
  }

  ghost predicate GoodNumbers(s: State)
    requires s.arrays != []
  {
    && (forall n: nat :: n < |s.chain| ==> GoodNumber(s, n))
    && (forall n: nat, m: nat :: SameChain(s, n, m) ==> Apart(s, n, m))
  }

  /** Nothing was stored yet for numbers that are not in use. */
  ghost predicate Clean(s: State)
    requires s.arrays != []
  {
    && |Current(s).spans| == |Current(s).orders|
    && forall n: nat :: n >= |s.chain| && (s.writer.Idle? || n != s.writer.job.num) ==>
         FromAt(Current(s), n) == 0 && UntilAt(Current(s), n) == 0 && OrderAt(Current(s), n) == n
  }

  ghost predicate Inv(s: State) {
    s.arrays != [] && GoodJob(s) && GoodNumbers(s) && Clean(s) && GoodReader(s)
  }

  lemma {:induction false} StartInv()
    ensures Inv(START)
  {
  }

  // ------------------------------------------------- every step keeps it

  lemma {:induction false} SetSpanAt(a: Words, n: nat, span: Span, m: nat)
    requires n < |a.spans|
    ensures var a' := SetSpan(a, n, span);
            && FromAt(a', m) == (if m == n then span.from else FromAt(a, m))
            && UntilAt(a', m) == (if m == n then span.until else UntilAt(a, m))
            && OrderAt(a', m) == OrderAt(a, m)
  {
  }

  lemma {:induction false} SetOrderAt(a: Words, n: nat, order: nat, m: nat)
    requires n < |a.orders|
    ensures var a' := SetOrder(a, n, order);
            && FromAt(a', m) == FromAt(a, m) && UntilAt(a', m) == UntilAt(a, m)
            && OrderAt(a', m) == (if m == n then order else OrderAt(a, m))
  {
  }

  lemma {:induction false} GrownAt(a: Words, size: nat, m: nat)
    requires |a.spans| <= size && |a.orders| <= size
    ensures var a' := Grown(a, size);
            FromAt(a', m) == FromAt(a, m) && UntilAt(a', m) == UntilAt(a, m) && OrderAt(a', m) == OrderAt(a, m)
  {
  }

  /** The stored words answer alike. */
  ghost predicate SameWords(a: Words, b: Words) {
    forall n: nat :: FromAt(a, n) == FromAt(b, n) && UntilAt(a, n) == UntilAt(b, n) && OrderAt(a, n) == OrderAt(b, n)
  }

  /** A step that leaves the published numbers and the words alone. */
  lemma {:induction false} SameNumbers(s: State, s': State)
    requires s.arrays != [] && s'.arrays != [] && GoodNumbers(s) && SameWords(Current(s), Current(s'))
    requires s'.chain == s.chain && s'.version == s.version && s.inserted <= s'.inserted
    requires Retired(s) ==> Retired(s')
    requires forall n: nat :: Pending(s, n) <==> Pending(s', n)
    ensures GoodNumbers(s')
  {
    forall n: nat | n < |s.chain| ensures GoodNumber(s', n) {
      assert GoodNumber(s, n);
      if UntilAt(Current(s), n) != 0 {
        var m :| n < m < |s.chain| && s.chain[m] == s.chain[n] && FromAt(Current(s), m) == UntilAt(Current(s), n);
        assert FromAt(Current(s'), m) == UntilAt(Current(s'), n);
      }
    }
    forall n: nat, m: nat | SameChain(s', n, m) ensures Apart(s', n, m) {
      assert SameChain(s, n, m) && Apart(s, n, m);
    }
  }

  lemma {:induction false} SameReader(s: State, s': State)
    requires s.arrays != [] && s'.arrays != [] && GoodReader(s) && SameWords(Current(s), Current(s'))
    requires s'.chain == s.chain && s'.version >= s.version && s'.reader == s.reader
    requires forall i :: 0 <= i < |s.arrays| ==> i < |s'.arrays| && SameWords(s.arrays[i], s'.arrays[i])
    ensures GoodReader(s')
  {
    if s.reader.Ready? {
      var v, l, a := s.reader.version, s.reader.limit, s.reader.array_;
      forall n: nat | n < l ensures Accurate(s', s'.arrays[a], v, n) {
        assert Accurate(s, s.arrays[a], v, n);
      }
    }
  }

  lemma {:induction false} ReadKeeps(s: State, s': State)
    requires Inv(s) && (LoadVersion(s, s') || LoadIds(s, s') || LoadMeta(s, s') || Leave(s, s'))
    ensures Inv(s')
  {
    SameNumbers(s, s');
    if LoadIds(s, s') {
      assert Within(s', s.reader.version, |s.chain|);
    }
  }

  lemma {:induction false} PlanKeeps(s: State, s': State)
    requires Inv(s) && Plan(s, s')
    ensures Inv(s')
  {
    var o: nat :| PlanFor(s, s', o);
    assert GoodNumber(s, o);
    SameNumbers(s, s');
    SameReader(s, s');
  }

  lemma {:induction false} SizeKeeps(s: State, s': State)
    requires Inv(s) && Size(s, s')
    ensures Inv(s')
  {
    if s.writer.job.num < |Current(s).spans| {
    } else {
      var size: nat :| SizeTo(s, s', size);
      forall n: nat ensures FromAt(Current(s'), n) == FromAt(Current(s), n) &&
        UntilAt(Current(s'), n) == UntilAt(Current(s), n)
                            && OrderAt(Current(s'), n) == OrderAt(Current(s), n)
      {
        GrownAt(Current(s), size, n);
      }
    }
    SameNumbers(s, s');
    SameReader(s, s');
  }

  lemma {:induction false} InsertKeeps(s: State, s': State)
    requires Inv(s) && Insert(s, s')
    ensures Inv(s')
  {
    SameNumbers(s, s');
    SameReader(s, s');
  }

  /** The words of published numbers answer alike. */
  ghost predicate SamePublished(s: State, a: Words, b: Words) {
    forall n: nat :: n < |s.chain| ==>
      FromAt(a, n) == FromAt(b, n) && UntilAt(a, n) == UntilAt(b, n) && OrderAt(a, n) == OrderAt(b, n)
  }

  /** Storing the words of a number that is not published. */
  lemma {:induction false} UnpublishedNumbers(s: State, s': State)
    requires s.arrays != [] && s'.arrays != [] && GoodNumbers(s) && SamePublished(s, Current(s), Current(s'))
    requires s'.chain == s.chain && s'.version == s.version && s.inserted == s'.inserted
    requires !Retired(s) && !Retired(s') && forall n: nat :: !Pending(s, n) && !Pending(s', n)
    ensures GoodNumbers(s')
  {
    forall n: nat | n < |s.chain| ensures GoodNumber(s', n) {
      assert GoodNumber(s, n) && s.chain[n] < |s.chain|;
      if UntilAt(Current(s), n) != 0 {
        var m :| n < m < |s.chain| && s.chain[m] == s.chain[n] && FromAt(Current(s), m) == UntilAt(Current(s), n);
        assert FromAt(Current(s'), m) == UntilAt(Current(s'), n);
      }
    }
    forall n: nat, m: nat | SameChain(s', n, m) ensures Apart(s', n, m) {
      assert SameChain(s, n, m) && Apart(s, n, m);
    }
  }

  /** The array a reader has loaded is older than the current one, or changes with it. */
  lemma {:induction false} UnpublishedReader(s: State, s': State)
    requires s.arrays != [] && GoodReader(s) && |s'.arrays| == |s.arrays|
    requires s'.arrays[..|s.arrays| - 1] == s.arrays[..|s.arrays| - 1]
    requires SamePublished(s, Current(s), Current(s'))
    requires s'.chain == s.chain && s'.version == s.version && s'.reader == s.reader
    ensures GoodReader(s')
  {
    match s.reader
    case Ready(v, l, a) =>
      assert a < |s.arrays| - 1 ==> s'.arrays[a] == s'.arrays[..|s.arrays| - 1][a] == s.arrays[a];
      forall n: nat | n < l ensures Accurate(s', s'.arrays[a], v, n) {
        assert Accurate(s, s.arrays[a], v, n);
      }
    case _ =>
  }

  lemma {:induction false} StoreSpanKeeps(s: State, s': State)
    requires Inv(s) && StoreSpan(s, s')
    ensures Inv(s')
  {
    var j := s.writer.job;
    forall n: nat ensures n != j.num ==>
      FromAt(Current(s'), n) == FromAt(Current(s), n) && UntilAt(Current(s'), n) == UntilAt(Current(s), n)
                  ensures OrderAt(Current(s'), n) == OrderAt(Current(s), n)
    {
      SetSpanAt(Current(s), j.num, Span(j.v, 0), n);
    }
    UnpublishedNumbers(s, s');
    UnpublishedReader(s, s');
  }

  lemma {:induction false} StoreOrderKeeps(s: State, s': State)
    requires Inv(s) && StoreOrder(s, s')
    ensures Inv(s')
  {
    var j := s.writer.job;
    forall n: nat ensures FromAt(Current(s'), n) == FromAt(Current(s), n) &&
      UntilAt(Current(s'), n) == UntilAt(Current(s), n)
                  ensures OrderAt(Current(s'), n) == if n == j.num then j.order else OrderAt(Current(s), n)
    {
      SetOrderAt(Current(s), j.num, j.order, n);
    }
    UnpublishedNumbers(s, s');
    UnpublishedReader(s, s');
  }

  /** A number published after the reader loaded the version is not visible at that version, or begins a chain. */
  lemma {:induction false} PublishedReader(s: State, s': State)
    requires s.arrays != [] && GoodReader(s) && s'.arrays == s.arrays && s'.version == s.version
    requires s'.reader == s.reader
    requires |s'.chain| == |s.chain| + 1 && s'.chain[..|s.chain|] == s.chain
    requires s'.chain[|s.chain|] == |s.chain| || FromAt(Current(s), |s.chain|) > s.version
    ensures GoodReader(s')
  {
    assert forall m :: 0 <= m < |s.chain| ==> s'.chain[m] == s'.chain[..|s.chain|][m] == s.chain[m];
    match s.reader
    case Ready(v, l, a) =>
      forall n: nat | n < l ensures Accurate(s', s'.arrays[a], v, n) {
        assert Accurate(s, s.arrays[a], v, n);
      }
    case _ =>
  }

  lemma {:induction false} AddKeeps(s: State, s': State)
    requires Inv(s) && Add(s, s')
    ensures Inv(s')
  {
    forall n: nat | n < |s'.chain| ensures GoodNumber(s', n) {
      if n < |s.chain| {
        GoodNumberLater(s, s', n);
      }
    }
    forall n: nat, m: nat | SameChain(s', n, m) ensures Apart(s', n, m) {
      assert n < |s.chain| ==> GoodNumber(s, n);
      assert m < |s.chain| ==> GoodNumber(s, m);
      assert SameChain(s, n, m) && Apart(s, n, m);
    }
    PublishedReader(s, s');
  }

  /** Publishing another number leaves those before it as they are. */
  lemma {:induction false} GoodNumberLater(s: State, s': State, n: nat)
    requires s.arrays != [] && s'.arrays == s.arrays && n < |s.chain| < |s'.chain| && s'.chain[..|s.chain|] == s.chain
    requires GoodNumber(s, n) && s'.version == s.version && s'.inserted == s.inserted && !Retired(s) && !Retired(s')
    requires !Pending(s, n)
    ensures GoodNumber(s', n)
  {
    assert forall m :: 0 <= m < |s.chain| ==> s'.chain[m] == s'.chain[..|s.chain|][m] == s.chain[m];
    if UntilAt(Current(s), n) != 0 {
      var m :| n < m < |s.chain| && s.chain[m] == s.chain[n] && FromAt(Current(s), m) == UntilAt(Current(s), n);
      assert s'.chain[m] == s'.chain[n];
    }
  }

  lemma {:induction false} ListKeeps(s: State, s': State)
    requires Inv(s) && List(s, s')
    ensures Inv(s')
  {
    var j := s.writer.job;
    assert GoodNumber(s, j.old_);
    forall n: nat | n < |s'.chain| ensures GoodNumber(s', n) {
      if n < |s.chain| {
        assert GoodNumber(s, n);
        GoodNumberLater(s, s', n);
      }
    }
    forall n: nat, m: nat | SameChain(s', n, m) ensures Apart(s', n, m) {
      assert SameChain(s, n, m) && Apart(s, n, m);
    }
    assert s'.chain[..|s.chain|] == s.chain;
    PublishedReader(s, s');
  }

  lemma {:induction false} StoreOldOrderKeeps(s: State, s': State)
    requires Inv(s) && StoreOldOrder(s, s')
    ensures Inv(s')
  {
    var j := s.writer.job;
    assert GoodNumber(s, j.old_);
    forall n: nat ensures FromAt(Current(s'), n) == FromAt(Current(s), n) &&
      UntilAt(Current(s'), n) == UntilAt(Current(s), n)
                  ensures OrderAt(Current(s'), n) == OrderAt(Current(s), n)
    {
      SetOrderAt(Current(s), j.old_, j.order, n);
    }
    SameNumbers(s, s');
    UnpublishedReader(s, s');
  }

  /** After the old number got its end, only this end is new: it lies beyond the published version. */
  lemma {:induction false} OldSpanAt(s: State, s': State, n: nat)
    requires s.arrays != [] && GoodJob(s) && StoreOldSpan(s, s')
    ensures FromAt(Current(s'), n) == FromAt(Current(s), n) && OrderAt(Current(s'), n) == OrderAt(Current(s), n)
    ensures UntilAt(Current(s'), n) == if n == s.writer.job.old_ then s.version + 1 else UntilAt(Current(s), n)
    ensures UntilAt(Current(s), s.writer.job.old_) == 0
  {
    SetSpanAt(Current(s), s.writer.job.old_, Span(s.writer.job.from, s.writer.job.v), n);
  }

  lemma {:induction false} OldSpanNumber(s: State, s': State, n: nat)
    requires Inv(s) && StoreOldSpan(s, s') && n < |s.chain|
    ensures GoodNumber(s', n)
  {
    var j := s.writer.job;
    assert GoodNumber(s, n) && GoodNumber(s, j.old_);
    OldSpanAt(s, s', n);
    OldSpanAt(s, s', s.chain[n]);
    OldSpanAt(s, s', j.num);
    if n == j.old_ {
      assert s'.chain[j.num] == s'.chain[n] && FromAt(Current(s'), j.num) == UntilAt(Current(s'), n);
    } else if UntilAt(Current(s), n) != 0 {
      var m :| n < m < |s.chain| && s.chain[m] == s.chain[n] && FromAt(Current(s), m) == UntilAt(Current(s), n);
      OldSpanAt(s, s', m);
      assert FromAt(Current(s'), m) == UntilAt(Current(s'), n);
    }
  }

  lemma {:induction false} OldSpanReader(s: State, s': State)
    requires Inv(s) && StoreOldSpan(s, s')
    ensures GoodReader(s')
  {
    forall n: nat
      ensures FromAt(Current(s'), n) == FromAt(Current(s), n) && OrderAt(Current(s'), n) == OrderAt(Current(s), n)
      ensures UntilAt(Current(s'), n) == if n == s.writer.job.old_ then s.version + 1 else UntilAt(Current(s), n)
    {
      OldSpanAt(s, s', n);
    }
    match s.reader
    case Ready(v, l, a) =>
      forall n: nat | n < l ensures Accurate(s', s'.arrays[a], v, n) {
        assert Accurate(s, s.arrays[a], v, n);
      }
    case _ =>
  }

  lemma {:induction false} StoreOldSpanKeeps(s: State, s': State)
    requires Inv(s) && StoreOldSpan(s, s')
    ensures Inv(s')
  {
    forall n: nat | n < |s.chain| ensures GoodNumber(s', n) {
      OldSpanNumber(s, s', n);
    }
    forall n: nat, m: nat | SameChain(s', n, m) ensures Apart(s', n, m) {
      assert SameChain(s, n, m) && Apart(s, n, m);
      assert GoodNumber(s, n) && GoodNumber(s, m);
      OldSpanAt(s, s', n);
      OldSpanAt(s, s', m);
    }
    OldSpanReader(s, s');
    forall n: nat
      ensures FromAt(Current(s'), n) == FromAt(Current(s), n) && OrderAt(Current(s'), n) == OrderAt(Current(s), n)
      ensures UntilAt(Current(s'), n) == if n == s.writer.job.old_ then s.version + 1 else UntilAt(Current(s), n)
    {
      OldSpanAt(s, s', n);
    }
  }

  lemma {:induction false} PublishKeeps(s: State, s': State)
    requires Inv(s) && Publish(s, s')
    ensures Inv(s')
  {
    var j := s.writer.job;
    forall n: nat | n < |s.chain| ensures GoodNumber(s', n) {
      assert GoodNumber(s, n);
      if UntilAt(Current(s), n) != 0 {
        var m :| n < m < |s.chain| && s.chain[m] == s.chain[n] && FromAt(Current(s), m) == UntilAt(Current(s), n);
        assert s'.chain[m] == s'.chain[n];
      }
    }
    forall n: nat, m: nat | SameChain(s', n, m) ensures Apart(s', n, m) {
      PublishApart(s, s', n, m);
    }
    SameReader(s, s');
  }

  /** The new number begins where the old one ends, after all others of its chain. */
  lemma {:induction false} PublishApart(s: State, s': State, n: nat, m: nat)
    requires Inv(s) && Publish(s, s') && SameChain(s', n, m)
    ensures Apart(s', n, m)
  {
    var j := s.writer.job;
    assert GoodNumber(s, n) && GoodNumber(s, m);
    var k := if n == j.num then m else n;
    if (n == j.num || m == j.num) && k != j.old_ {
      assert SameChain(s, k, j.old_) && Apart(s, k, j.old_);
    } else if n != j.num && m != j.num {
      assert SameChain(s, n, m) && Apart(s, n, m);
    }
  }

  /** Every step of the writer and of the reader keeps the invariant. */
  lemma {:induction false} NextKeeps(s: State, s': State)
    requires Inv(s) && Next(s, s')
    ensures Inv(s')
  {
    if Add(s, s') {
      AddKeeps(s, s');
    } else if Plan(s, s') {
      PlanKeeps(s, s');
    } else if Size(s, s') {
      SizeKeeps(s, s');
    } else if StoreSpan(s, s') {
      StoreSpanKeeps(s, s');
    } else if StoreOrder(s, s') {
      StoreOrderKeeps(s, s');
    } else if List(s, s') {
      ListKeeps(s, s');
    } else if Insert(s, s') {
      InsertKeeps(s, s');
    } else if StoreOldSpan(s, s') {
      StoreOldSpanKeeps(s, s');
    } else if StoreOldOrder(s, s') {
      StoreOldOrderKeeps(s, s');
    } else if Publish(s, s') {
      PublishKeeps(s, s');
    } else {
      ReadKeeps(s, s');
    }
  }

  // -------------------------------------------------------- what a call sees

  /** visible, as the call evaluates it at some point of its traversal. */
  predicate Sees(s: State, n: nat) {
    s.reader.Ready? && s.reader.array_ < |s.arrays| && n < s.reader.limit
    && VisibleAt(s.arrays[s.reader.array_], s.reader.version, n)
  }

  function OrderSeen(s: State, n: nat): nat {
    if s.reader.Ready? && s.reader.array_ < |s.arrays| then OrderAt(s.arrays[s.reader.array_], n) else n
  }

  /** However old the array is, the call sees what was current at its version. */
  lemma {:induction false} SeesCurrent(s: State, n: nat)
    requires Inv(s) && s.reader.Ready? && n < s.reader.limit
    ensures Sees(s, n) <==> VisibleAt(Current(s), s.reader.version, n)
    ensures OrderSeen(s, n) == s.chain[n]
  {
    assert Accurate(s, s.arrays[s.reader.array_], s.reader.version, n);
    assert GoodNumber(s, n);
  }

  /** A number that is visible to the call has all its condition sets in the trie, if ReplaceRule created it. */
  lemma {:induction false} SeenIsInserted(s: State, n: nat)
    requires Inv(s) && Sees(s, n) && n != s.chain[n]
    ensures n in s.inserted
  {
    SeesCurrent(s, n);
    assert GoodNumber(s, n);
  }

  lemma {:induction false} AtMostOne(s: State, n: nat, m: nat)
    requires Inv(s) && Sees(s, n) && Sees(s, m) && s.chain[n] == s.chain[m]
    ensures n == m
  {
    SeesCurrent(s, n);
    SeesCurrent(s, m);
    assert GoodNumber(s, n) && GoodNumber(s, m);
    assert SameChain(s, n, m) ==> Apart(s, n, m);
  }

  /** The number of a chain that is current at a version, found by following the chain from n. */
  lemma {:induction false} FindVisible(s: State, version: nat, n: nat) returns (m: nat)
    requires Inv(s) && n < |s.chain| && FromAt(Current(s), n) <= version
    ensures m < |s.chain| && s.chain[m] == s.chain[n] && VisibleAt(Current(s), version, m)
    decreases |s.chain| - n
  {
    assert GoodNumber(s, n);
    var u := UntilAt(Current(s), n);
    if u == 0 || version < u {
      m := n;
    } else {
      var next :| n < next < |s.chain| && s.chain[next] == s.chain[n] && FromAt(Current(s), next) == u;
      m := FindVisible(s, version, next);
    }
  }

  /** The call sees exactly one number of every chain it knows, at the position of the chain. */
  lemma {:induction false} ExactlyOne(s: State, c: nat) returns (n: nat)
    requires Inv(s) && s.reader.Ready? && c < s.reader.limit && s.chain[c] == c
    ensures Sees(s, n) && s.chain[n] == c && OrderSeen(s, n) == c
    ensures forall m: nat :: Sees(s, m) && s.chain[m] == c ==> m == n
  {
    assert GoodNumber(s, c);
    n := FindVisible(s, s.reader.version, c);
    SeesCurrent(s, if n < s.reader.limit then n else c);
    forall m: nat | Sees(s, m) && s.chain[m] == c ensures m == n {
      AtMostOne(s, n, m);
    }
  }

  // -------------------------------------------------------------------- runs

  /** Steps change what is current only at later versions. */
  lemma {:induction false} PastIsStable(s: State, s': State, version: nat, n: nat)
    requires Inv(s) && Next(s, s') && version <= s.version && n < |s.chain|
    ensures n < |s'.chain| && s'.chain[n] == s.chain[n]
    ensures VisibleAt(Current(s'), version, n) <==> VisibleAt(Current(s), version, n)
  {
    if StoreSpan(s, s') {
      SetSpanAt(Current(s), s.writer.job.num, Span(s.writer.job.v, 0), n);
    } else if StoreOldSpan(s, s') {
      OldSpanAt(s, s', n);
    } else if StoreOrder(s, s') {
      SetOrderAt(Current(s), s.writer.job.num, s.writer.job.order, n);
    } else if StoreOldOrder(s, s') {
      SetOrderAt(Current(s), s.writer.job.old_, s.writer.job.order, n);
    } else if Size(s, s') && s.writer.job.num >= |Current(s).spans| {
      var size: nat :| SizeTo(s, s', size);
      GrownAt(Current(s), size, n);
    }
  }

  type Run = seq<State>

  ghost predicate IsRun(run: Run) {
    run != [] && run[0] == START && forall i :: 0 <= i < |run| - 1 ==> Next(run[i], run[i + 1])
  }

  lemma {:induction false} RunKeeps(run: Run, i: nat)
    requires IsRun(run) && i < |run|
    ensures Inv(run[i])
  {
    if i == 0 {
      StartInv();
    } else {
      RunKeeps(run, i - 1);
      NextKeeps(run[i - 1], run[i - 1 + 1]);
    }
  }

  /** A call begins with the step after i and has not returned before k. */
  ghost predicate InCall(run: Run, i: nat, k: nat) {
    i < k < |run| && LoadVersion(run[i], run[i + 1]) && forall q :: i < q <= k ==> !run[q].reader.Outside?
  }

  lemma {:induction false} CallVersion(run: Run, i: nat, k: nat)
    requires IsRun(run) && InCall(run, i, k)
    ensures run[k].reader.version == run[i].version && run[i].version <= run[k].version
  {
    if k > i + 1 {
      CallVersion(run, i, k - 1);
      LastStep(run, k);
    }
  }

  predicate CurrentAt(s: State, version: nat, n: nat) {
    s.arrays != [] && VisibleAt(Current(s), version, n)
  }

  lemma {:induction false} PastStep(run: Run, k: nat, version: nat, n: nat)
    requires IsRun(run) && 0 < k < |run| && version <= run[k - 1].version && n < |run[k - 1].chain|
    ensures n < |run[k].chain| && (CurrentAt(run[k], version, n) <==> CurrentAt(run[k - 1], version, n))
  {
    LastStep(run, k);
    PastIsStable(run[k - 1], run[k], version, n);
  }

  /** n is published at k, and as current at this version as it was at i. */
  ghost predicate StillCurrent(run: Run, i: nat, k: nat, version: nat, n: nat)
    requires i < |run| && k < |run|
  {
    n < |run[k].chain| && (CurrentAt(run[k], version, n) <==> CurrentAt(run[i], version, n))
  }

  lemma {:induction false} PastStaysAt(run: Run, i: nat, k: nat, version: nat, n: nat)
    requires IsRun(run) && i < k < |run| && version <= run[k - 1].version && StillCurrent(run, i, k - 1, version, n)
    ensures StillCurrent(run, i, k, version, n)
  {
    PastStep(run, k, version, n);
  }

  lemma {:induction false} PastStaysHere(run: Run, i: nat, version: nat, n: nat)
    requires i < |run| && n < |run[i].chain|
    ensures StillCurrent(run, i, i, version, n)
  {
  }

  lemma {:induction false} PastStaysInRun(run: Run, i: nat, k: nat, version: nat, n: nat)
    requires IsRun(run) && i <= k < |run| && n < |run[i].chain| && version <= run[i].version
    ensures StillCurrent(run, i, k, version, n)
    decreases k
  {
    if k == i {
      PastStaysHere(run, i, version, n);
    } else {
      PastStaysInRun(run, i, k - 1, version, n);
      VersionsGrow(run, i, k - 1);
      PastStaysAt(run, i, k, version, n);
    }
  }

  /**
   * ReplaceRule is atomic. Whatever steps are interleaved with it, at every
   * point of its traversal a call sees the numbers that were current when it
   * loaded the version, and of the identifiers added since then the first
   * number.
   */
  lemma {:induction false} CallIsAtomic(run: Run, i: nat, k: nat, n: nat)
    requires IsRun(run) && InCall(run, i, k) && run[k].reader.Ready? && n < run[k].reader.limit
    ensures Inv(run[i]) && n < |run[k].chain|
    ensures Sees(run[k], n) <==>
            if n < |run[i].chain| then CurrentAt(run[i], run[i].version, n) else n == run[k].chain[n]
    ensures OrderSeen(run[k], n) == run[k].chain[n]
  {
    RunKeeps(run, i);
    RunKeeps(run, k);
    CallVersion(run, i, k);
    SeesCurrent(run[k], n);
    if n < |run[i].chain| {
      PastStaysInRun(run, i, k, run[i].version, n);
    } else {
      LaterNumber(run, i, k, n);
    }
  }

  /** A number published during a call that continues a chain is not visible to the call; one that begins a chain is. */
  lemma {:induction false} LaterNumber(run: Run, i: nat, k: nat, n: nat)
    requires IsRun(run) && i <= k < |run| && |run[i].chain| <= n < |run[k].chain|
    ensures Inv(run[k]) && run[i].version <= run[k].version
    ensures VisibleAt(Current(run[k]), run[i].version, n) <==> n == run[k].chain[n]
  {
    LastStep(run, k);
    VersionsGrow(run, i, k - 1);
    VersionsGrow(run, i, k);
    if n < |run[k - 1].chain| {
      LaterNumber(run, i, k - 1, n);
      PastIsStable(run[k - 1], run[k], run[i].version, n);
    } else {
      NewNumberVisible(run[k - 1], run[k], run[i].version, n);
    }
  }

  lemma {:induction false} LastStep(run: Run, k: nat)
    requires IsRun(run) && 0 < k < |run|
    ensures Inv(run[k - 1]) && Inv(run[k]) && Next(run[k - 1], run[k])
  {
    RunKeeps(run, k - 1);
    assert Next(run[k - 1], run[k - 1 + 1]);
    NextKeeps(run[k - 1], run[k]);
  }

  lemma {:induction false} NewNumberVisible(s: State, s': State, version: nat, n: nat)
    requires Inv(s) && Next(s, s') && version <= s.version && |s.chain| <= n < |s'.chain| && s'.arrays != []
    ensures VisibleAt(Current(s'), version, n) <==> n == s'.chain[n]
  {
    if List(s, s') {
      assert GoodNumber(s, s.writer.job.old_);
    } else {
      assert Add(s, s');
    }
  }

  lemma {:induction false} VersionsGrow(run: Run, i: nat, k: nat)
    requires IsRun(run) && i <= k < |run|
    ensures run[i].version <= run[k].version
  {
    if i < k {
      VersionsGrow(run, i, k - 1);
      LastStep(run, k);
    }
  }

  // --------------------------------------- every replacement can be completed

  function Last(run: Run): State
    requires run != []
  {
    run[|run| - 1]
  }

  /** The next step of a ReplaceRule that has begun. */
  function StepOf(s: State): State
    requires s.arrays != [] && !s.writer.Idle? && s.writer.job.old_ < |s.chain|
    requires !s.writer.Planned? ==> HasRoom(s, s.writer.job.num) && HasRoom(s, s.writer.job.old_)
    requires s.writer.Planned? ==> |Current(s).spans| == |Current(s).orders|
  {
    var j, a := s.writer.job, Current(s);
    match s.writer
    case Planned(_) =>
      if j.num < |a.spans| then s.(writer := Sized(j))
      else s.(arrays := s.arrays + [Grown(a, j.num + 1)], writer := Sized(j))
    case Sized(_) => WithCurrent(s, SetSpan(a, j.num, Span(j.v, 0))).(writer := SpanSet(j))
    case SpanSet(_) => WithCurrent(s, SetOrder(a, j.num, j.order)).(writer := OrderSet(j))
    case OrderSet(_) => s.(chain := s.chain + [s.chain[j.old_]], writer := Listed(j))
    case Listed(_) => s.(inserted := s.inserted + {j.num}, writer := Inserted(j))
    case Inserted(_) => WithCurrent(s, SetSpan(a, j.old_, Span(j.from, j.v))).(writer := OldSpanSet(j))
    case OldSpanSet(_) => WithCurrent(s, SetOrder(a, j.old_, j.order)).(writer := OldOrderSet(j))
    case OldOrderSet(_) => s.(version := j.v, writer := Idle)
  }

  /** Nothing the reader does blocks it. */
  lemma {:induction false} Advance(run: Run) returns (more: Run)
    requires IsRun(run) && !Last(run).writer.Idle?
    ensures Inv(Last(run)) && Last(run).writer.job.old_ < |Last(run).chain|
    ensures IsRun(more) && more == run + [StepOf(Last(run))]
  {
    var s := Last(run);
    RunKeeps(run, |run| - 1);
    more := run + [StepOf(s)];
    StepIsNext(s);
    RunNext(run, StepOf(s));
  }

  lemma {:induction false} StepIsNext(s: State)
    requires Inv(s) && !s.writer.Idle?
    ensures s.writer.job.old_ < |s.chain| && Next(s, StepOf(s))
  {
    if s.writer.Planned? && s.writer.job.num >= |Current(s).spans| {
      assert SizeTo(s, StepOf(s), s.writer.job.num + 1);
    }
  }

  lemma {:induction false} RunNext(run: Run, s: State)
    requires IsRun(run) && Next(Last(run), s)
    ensures IsRun(run + [s]) && Last(run + [s]) == s
  {
    var longer := run + [s];
    forall i | 0 <= i < |longer| - 1 ensures Next(longer[i], longer[i + 1]) {
      assert i < |run| - 1 ==> Next(run[i], run[i + 1]);
    }
  }

  /** How many steps are left of a ReplaceRule. */
  function StepsLeft(w: Writer): nat {
    match w
    case Idle => 0
    case Planned(_) => 8
    case Sized(_) => 7
    case SpanSet(_) => 6
    case OrderSet(_) => 5
    case Listed(_) => 4
    case Inserted(_) => 3
    case OldSpanSet(_) => 2
    case OldOrderSet(_) => 1
  }

  /** The version the job is for is published: its number is current, and the one it replaces is not. */
  ghost predicate Done(s: State, j: Job) {
    s.version == j.v && CurrentAt(s, j.v, j.num) && !CurrentAt(s, j.v, j.old_)
  }

  lemma {:induction false} PublishDone(s: State)
    requires Inv(s) && s.writer.OldOrderSet? && s.writer.job.old_ < |s.chain|
    ensures Done(StepOf(s), s.writer.job)
  {
  }

  lemma {:induction false} Complete(run: Run, j: Job) returns (more: Run)
    requires IsRun(run) && !Last(run).writer.Idle? && Last(run).writer.job == j
    ensures IsRun(more) && run <= more && Last(more).writer.Idle? && Last(more).reader == Last(run).reader
    ensures Done(Last(more), j)
    decreases StepsLeft(Last(run).writer)
  {
    more := Advance(run);
    if Last(run).writer.OldOrderSet? {
      PublishDone(Last(run));
    } else {
      more := Complete(more, j);
    }
  }

  /** Between two calls of ReplaceRule, whatever the reader does, some steps replace any number that is not replaced. */
  lemma {:induction false} CanReplace(run: Run, o: nat) returns (more: Run, j: Job)
    requires IsRun(run) && Last(run).writer.Idle? && o < |Last(run).chain|
    requires Last(run).arrays != [] && UntilAt(Current(Last(run)), o) == 0
    ensures IsRun(more) && run <= more && Last(more).writer.Idle? && Last(more).reader == Last(run).reader
    ensures j.old_ == o && j.num == |Last(run).chain| && j.v == Last(run).version + 1 && Done(Last(more), j)
  {
    var s := Last(run);
    j := Job(o, |s.chain|, FromAt(Current(s), o), OrderAt(Current(s), o), s.version + 1);
    assert PlanFor(s, s.(writer := Planned(j)), o);
    RunNext(run, s.(writer := Planned(j)));
    more := Complete(run + [s.(writer := Planned(j))], j);
  }
}
