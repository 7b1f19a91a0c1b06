/**
 * RemoveRule, and adding a removed identifier again, against one concurrent
 * Match call, together with the steps of `ReplaceProtocol` (RemoveRule, compact
 * and begin in hypermatch.go, bitset in concurrent.go).
 */
module RemoveProtocol {
  import opened ByteStrings
  import opened ReplaceProtocol

  /** Identifiers, numbered in any way. */
  type Id = nat

  /**
   * One table. owner holds the identifier of every published number, and bits the
   * arrays with the removed numbers, of which the last one is current. loaded is
   * the array the call has loaded, as the last of its loads.
   */
  datatype Table = Table(base: State, owner: seq<Id>, bits: seq<set<nat>>, loaded: Option<nat>)

  function Removed(t: Table): set<nat> {
    if t.bits == [] then {} else t.bits[|t.bits| - 1]
  }

  /** One of the numbers of the chain c is among the removed ones. */
  ghost predicate DeadIn(t: Table, removed: set<nat>, c: nat) {
    exists r :: r in removed && r < |t.base.chain| && t.base.chain[r] == c
  }

  /** c is the first number of a chain none of whose numbers has been removed. */
  ghost predicate IsLive(t: Table, c: nat) {
    c < |t.base.chain| && c < |t.owner| && t.base.chain[c] == c && !DeadIn(t, Removed(t), c)
  }

  ghost predicate Present(t: Table, id: Id) {
    exists c: nat :: IsLive(t, c) && t.owner[c] == id
  }

  // ------------------------------------------------------------------- steps

  /** AddRule for an identifier that is not present. */
  ghost predicate AddNew(t: Table, t': Table) {
    exists id :: !Present(t, id) && Add(t.base, t'.base) && t' == t.(base := t'.base, owner := t.owner + [id])
  }

  /** ReplaceRule for the number of a present identifier. */
  ghost predicate PlanLive(t: Table, t': Table) {
    exists o: nat :: o !in Removed(t) && PlanFor(t.base, t'.base, o) && t' == t.(base := t'.base)
  }

  ghost predicate ListOwned(t: Table, t': Table) {
    && List(t.base, t'.base) && t.base.writer.job.old_ < |t.owner|
    && t' == t.(base := t'.base, owner := t.owner + [t.owner[t.base.writer.job.old_]])
  }

  ghost predicate Stores(s: State, s': State) {
    || Size(s, s') || StoreSpan(s, s') || StoreOrder(s, s') || Insert(s, s') || StoreOldSpan(s, s')
    || StoreOldOrder(s, s') || Publish(s, s')
  }

  ghost predicate Store(t: Table, t': Table) {
    Stores(t.base, t'.base) && t' == t.(base := t'.base)
  }

  /** set publishes a longer copy if the number does not fit. */
  ghost predicate GrowBits(t: Table, t': Table) {
    t.base.writer.Idle? && t.bits != [] && t' == t.(bits := t.bits + [Removed(t)])
  }

  /** RemoveRule: the present number of an identifier is removed. */
  ghost predicate SetBit(t: Table, t': Table) {
    exists n :: SetBitOf(t, t', n)
  }

  ghost predicate SetBitOf(t: Table, t': Table, n: nat) {
    && t.base.writer.Idle? && t.bits != [] && t.base.arrays != [] && n < |t.base.chain|
    && UntilAt(Current(t.base), n) == 0 && n !in Removed(t)
    && t' == t.(bits := t.bits[|t.bits| - 1 := Removed(t) + {n}])
  }

  ghost predicate LoadBase(t: Table, t': Table) {
    && (LoadVersion(t.base, t'.base) || LoadIds(t.base, t'.base) || LoadMeta(t.base, t'.base))
    && t' == t.(base := t'.base)
  }

  ghost predicate LoadBits(t: Table, t': Table) {
    t.base.reader.Ready? && t.loaded.None? && t.bits != [] && t' == t.(loaded := Some(|t.bits| - 1))
  }

  ghost predicate LeaveTable(t: Table, t': Table) {
    Leave(t.base, t'.base) && t' == t.(base := t'.base, loaded := None)
  }

  ghost predicate TableWrites(t: Table, t': Table) {
    AddNew(t, t') || PlanLive(t, t') || ListOwned(t, t') || Store(t, t') || GrowBits(t, t') || SetBit(t, t')
  }

  ghost predicate TableReads(t: Table, t': Table) {
    LoadBase(t, t') || LoadBits(t, t') || LeaveTable(t, t')
  }

  ghost predicate TableNext(t: Table, t': Table) {
    TableWrites(t, t') || TableReads(t, t')
  }

  // --------------------------------------------------------------- invariant

  ghost predicate GoodOwners(t: Table) {
    |t.owner| == |t.base.chain| && forall n :: 0 <= n < |t.base.chain| ==> OwnerKept(t, n)
  }

  ghost predicate OwnerKept(t: Table, n: nat)
    requires n < |t.base.chain| == |t.owner|
  {
    t.base.chain[n] <= n && t.owner[n] == t.owner[t.base.chain[n]]
  }

  /** A removed number is the last one of its chain, and visible from a published version on. */
  ghost predicate GoodRemoved(t: Table, r: nat)
    requires t.base.arrays != []
  {
    && r < |t.base.chain| && UntilAt(Current(t.base), r) == 0 && FromAt(Current(t.base), r) <= t.base.version
    && (t.base.writer.Idle? || t.base.writer.job.old_ != r) && !Pending(t.base, r)
  }

  /** c and d are the first numbers of two chains of an identifier. */
  ghost predicate SameOwner(t: Table, c: nat, d: nat) {
    && c < |t.base.chain| && d < |t.base.chain| && c < |t.owner| && d < |t.owner|
    && t.base.chain[c] == c && t.base.chain[d] == d && t.owner[c] == t.owner[d]
  }

  /** Of two chains of an identifier, the first one is dead. */
  ghost predicate GoodChains(t: Table) {
    forall c: nat, d: nat :: c < d && SameOwner(t, c, d) ==> DeadIn(t, Removed(t), c)
  }

  /** If the call knows both chains, it has loaded the removed number of the first one. */
  ghost predicate GoodLoaded(t: Table) {
    t.loaded.Some? ==>
      && t.base.reader.Ready? && t.loaded.value < |t.bits|
      && forall c: nat, d: nat :: c < d < t.base.reader.limit && SameOwner(t, c, d) ==>
                                    DeadIn(t, t.bits[t.loaded.value], c)
  }

  ghost predicate TableInv(t: Table) {
    && Inv(t.base) && GoodOwners(t) && t.bits != [] && GoodChains(t) && GoodLoaded(t)
    && (forall r :: r in Removed(t) ==> GoodRemoved(t, r))
    && (forall i, r :: 0 <= i < |t.bits| && r in t.bits[i] ==> r in Removed(t))
  }

  // ------------------------------------------------------ every step keeps it

  /** Only the number that is being replaced, and the new one, change. */
  lemma {:induction false} NumberStays(s: State, s': State, n: nat)
    requires Inv(s) && Next(s, s') && n < |s.chain| && !Pending(s, n) && (s.writer.Idle? || n != s.writer.job.old_)
    ensures s'.arrays != [] && n < |s'.chain| && s'.chain[n] == s.chain[n]
    ensures FromAt(Current(s'), n) == FromAt(Current(s), n) && UntilAt(Current(s'), n) == UntilAt(Current(s), n)
  {
    if StoreSpan(s, s') {
      SetSpanAt(Current(s), s.writer.job.num, Span(s.writer.job.v, 0), n);
    } else if StoreOldSpan(s, s') {
      OldSpanAt(s, s', n);
    } else if StoreOrder(s, s') {
      SetOrderAt(Current(s), s.writer.job.num, s.writer.job.order, n);
    } else if StoreOldOrder(s, s') {
      SetOrderAt(Current(s), s.writer.job.old_, s.writer.job.order, n);
    } else if Size(s, s') && s.writer.job.num >= |Current(s).spans| {
      var size: nat :| SizeTo(s, s', size);
      GrownAt(Current(s), size, n);
    }
  }

  lemma {:induction false} VersionStays(s: State, s': State)
    requires Inv(s) && Next(s, s')
    ensures s.version <= s'.version && s.chain <= s'.chain
  {
  }

  lemma {:induction false} RemovedStays(t: Table, t': Table, r: nat)
    requires TableInv(t) && GoodRemoved(t, r) && Next(t.base, t'.base)
    requires t'.base.writer.Idle? || t'.base.writer.job.old_ != r
    ensures t'.base.arrays != [] && GoodRemoved(t', r)
  {
    NumberStays(t.base, t'.base, r);
    VersionStays(t.base, t'.base);
  }

  lemma {:induction false} DeadMore(t: Table, t': Table, removed: set<nat>, removed': set<nat>, c: nat)
    requires DeadIn(t, removed, c) && removed <= removed' && t.base.chain <= t'.base.chain
    ensures DeadIn(t', removed', c)
  {
    var r :| r in removed && r < |t.base.chain| && t.base.chain[r] == c;
    assert t'.base.chain[r] == t.base.chain[r];
  }

  /** A step adds numbers and removed numbers, but no chain of an identifier that is present. */
  ghost predicate AddsOnly(t: Table, t': Table) {
    && t.base.chain <= t'.base.chain && t.owner <= t'.owner && |t.owner| == |t.base.chain| == |t.base.chain|
    && |t.bits| <= |t'.bits| && t.bits != []
    && (forall i :: 0 <= i < |t.bits| ==> t.bits[i] <= t'.bits[i]) && Removed(t) <= Removed(t')
    && forall c: nat, d: nat :: c < d && SameOwner(t', c, d) ==> d < |t.owner| || DeadIn(t, Removed(t), c)
  }

  lemma {:induction false} ChainsKept(t: Table, t': Table)
    requires GoodChains(t) && AddsOnly(t, t')
    ensures GoodChains(t')
  {
    forall c: nat, d: nat | c < d && SameOwner(t', c, d) ensures DeadIn(t', Removed(t'), c) {
      assert d < |t.owner| ==> SameOwner(t, c, d);
      DeadMore(t, t', Removed(t), Removed(t'), c);
    }
  }

  lemma {:induction false} LoadedKept(t: Table, t': Table)
    requires GoodLoaded(t) && AddsOnly(t, t') && t'.base.reader == t.base.reader && t'.loaded == t.loaded
    requires t.base.reader.Ready? ==> t.base.reader.limit <= |t.base.chain|
    ensures GoodLoaded(t')
  {
    if t.loaded.Some? {
      var a := t.loaded.value;
      forall c: nat, d: nat | c < d < t.base.reader.limit && SameOwner(t', c, d) ensures DeadIn(t', t'.bits[a], c) {
        assert SameOwner(t, c, d);
        DeadMore(t, t', t.bits[a], t'.bits[a], c);
      }
    }
  }

  lemma {:induction false} LimitKnown(s: State)
    requires Inv(s) && s.reader.Ready?
    ensures s.reader.limit <= |s.chain|
  {
    assert GoodReader(s);
  }

  /** A step of the writer of ReplaceRule or AddRule. */
  lemma {:induction false} BaseKept(t: Table, t': Table)
    requires TableInv(t) && Next(t.base, t'.base) && t'.bits == t.bits && GoodOwners(t') && AddsOnly(t, t')
    requires t'.base.reader == t.base.reader && t'.loaded == t.loaded
    requires forall r :: r in Removed(t) ==> t'.base.writer.Idle? || t'.base.writer.job.old_ != r
    ensures TableInv(t')
  {
    NextKeeps(t.base, t'.base);
    ChainsKept(t, t');
    if t.base.reader.Ready? {
      LimitKnown(t.base);
    }
    LoadedKept(t, t');
    forall r | r in Removed(t') ensures GoodRemoved(t', r) {
      RemovedStays(t, t', r);
    }
  }

  lemma {:induction false} AddNewKeeps(t: Table, t': Table)
    requires TableInv(t) && AddNew(t, t')
    ensures TableInv(t')
  {
    var id :| !Present(t, id) && Add(t.base, t'.base) && t' == t.(base := t'.base, owner := t.owner + [id]);
    forall n | 0 <= n < |t'.base.chain| ensures OwnerKept(t', n) {
      assert n < |t.base.chain| ==> OwnerKept(t, n);
    }
    forall c: nat, d: nat | c < d && SameOwner(t', c, d) ensures d < |t.owner| || DeadIn(t, Removed(t), c) {
      if d == |t.owner| {
        assert t.owner[c] == id && !IsLive(t, c);
      }
    }
    BaseKept(t, t');
  }

  lemma {:induction false} ListKeepsOwners(t: Table, t': Table)
    requires TableInv(t) && ListOwned(t, t')
    ensures TableInv(t')
  {
    var o, n := t.base.writer.job.old_, |t.base.chain|;
    assert OwnerKept(t, o);
    forall m | 0 <= m < |t'.base.chain| ensures OwnerKept(t', m) {
      assert m < n ==> OwnerKept(t, m);
    }
    forall r | r in Removed(t) ensures t'.base.writer.job.old_ != r {
      assert GoodRemoved(t, r);
    }
    BaseKept(t, t');
  }

  lemma {:induction false} StoreKeeps(t: Table, t': Table)
    requires TableInv(t) && (Store(t, t') || PlanLive(t, t'))
    ensures TableInv(t')
  {
    assert t'.base.chain == t.base.chain;
    forall n | 0 <= n < |t'.base.chain| ensures OwnerKept(t', n) {
      assert OwnerKept(t, n);
    }
    forall r | r in Removed(t) ensures t'.base.writer.Idle? || t'.base.writer.job.old_ != r {
      assert GoodRemoved(t, r);
    }
    assert Plan(t.base, t'.base) || Stores(t.base, t'.base);
    BaseKept(t, t');
  }

  lemma {:induction false} GrowBitsKeeps(t: Table, t': Table)
    requires TableInv(t) && GrowBits(t, t')
    ensures TableInv(t')
  {
    SameBaseKept(t, t');
  }

  /** A step of RemoveRule. */
  lemma {:induction false} SameBaseKept(t: Table, t': Table)
    requires TableInv(t) && t' == t.(bits := t'.bits) && t'.bits != [] && AddsOnly(t, t')
    requires forall r :: r in Removed(t') ==> r in Removed(t) || GoodRemoved(t, r)
    requires forall i, r :: 0 <= i < |t'.bits| && r in t'.bits[i] ==> r in Removed(t')
    ensures TableInv(t')
  {
    forall n | 0 <= n < |t'.base.chain| ensures OwnerKept(t', n) {
      assert OwnerKept(t, n);
    }
    ChainsKept(t, t');
    if t.base.reader.Ready? {
      LimitKnown(t.base);
    }
    LoadedKept(t, t');
    forall r | r in Removed(t') ensures GoodRemoved(t', r) {
      assert GoodRemoved(t, r);
    }
  }

  lemma {:induction false} SetBitKeeps(t: Table, t': Table)
    requires TableInv(t) && SetBit(t, t')
    ensures TableInv(t')
  {
    var n :| SetBitOf(t, t', n);
    assert GoodNumber(t.base, n);
    SameBaseKept(t, t');
  }

  lemma {:induction false} ReadsKeep(t: Table, t': Table)
    requires TableInv(t) && TableReads(t, t')
    ensures TableInv(t')
  {
    if !LoadBits(t, t') {
      NextKeeps(t.base, t'.base);
    }
    assert t'.base.chain == t.base.chain && t'.base.arrays == t.base.arrays && Removed(t') == Removed(t);
    forall n | 0 <= n < |t'.base.chain| ensures OwnerKept(t', n) {
      assert OwnerKept(t, n);
    }
    forall c: nat, d: nat | c < d && SameOwner(t', c, d) ensures DeadIn(t', Removed(t'), c) {
      assert SameOwner(t, c, d);
      DeadMore(t, t', Removed(t), Removed(t'), c);
    }
    forall r | r in Removed(t') ensures GoodRemoved(t', r) {
      assert GoodRemoved(t, r);
    }
  }

  lemma {:induction false} TableNextKeeps(t: Table, t': Table)
    requires TableInv(t) && TableNext(t, t')
    ensures TableInv(t')
  {
    if AddNew(t, t') {
      AddNewKeeps(t, t');
    } else if PlanLive(t, t') || Store(t, t') {
      StoreKeeps(t, t');
    } else if ListOwned(t, t') {
      ListKeepsOwners(t, t');
    } else if GrowBits(t, t') {
      GrowBitsKeeps(t, t');
    } else if SetBit(t, t') {
      SetBitKeeps(t, t');
    } else {
      ReadsKeep(t, t');
    }
  }

  // ------------------------------------------------------------ what a call sees

  /** visible, with the removed numbers. */
  ghost predicate SeesLive(t: Table, n: nat) {
    Sees(t.base, n) && t.loaded.Some? && t.loaded.value < |t.bits| && n !in t.bits[t.loaded.value]
  }

  /** The call reports an identifier under two numbers. */
  ghost predicate Twice(t: Table, n: nat, m: nat) {
    SeesLive(t, n) && SeesLive(t, m) && n != m && n < |t.owner| && m < |t.owner| && t.owner[n] == t.owner[m]
  }

  /**
   * The call knows an identifier under m, which was added after the number r of
   * the identifier was removed; but r replaced another number after the call had
   * loaded the version.
   */
  ghost predicate ReplacedRemovedAdded(t: Table, r: nat, m: nat) {
    && t.base.reader.Ready? && t.base.arrays != [] && t.loaded.Some? && t.loaded.value < |t.bits|
    && r in t.bits[t.loaded.value] && FromAt(Current(t.base), r) > t.base.reader.version
    && SeesLive(t, m) && r < |t.base.chain| && m < |t.base.chain| && |t.owner| == |t.base.chain|
    && t.owner[r] == t.owner[m] && t.base.chain[r] != t.base.chain[m] && t.base.chain[r] < t.base.reader.limit
  }

  /** At most one number of a chain is ever removed. */
  lemma {:induction false} RemovedOnce(t: Table, r: nat, q: nat)
    requires TableInv(t) && r in Removed(t) && q in Removed(t)
    requires GoodRemoved(t, r) && GoodRemoved(t, q) && t.base.chain[r] == t.base.chain[q]
    ensures r == q
  {
    assert SameChain(t.base, r, q) ==> Apart(t.base, r, q);
  }

  /** The number that is current at the version of the call stays visible if another one of its chain was removed. */
  lemma {:induction false} ReplacedStillSeen(t: Table, r: nat, m: nat) returns (n: nat)
    requires TableInv(t) && ReplacedRemovedAdded(t, r, m)
    ensures Twice(t, n, m)
  {
    var s, c := t.base, t.base.chain[r];
    assert GoodRemoved(t, r) && GoodNumber(s, r);
    n := ExactlyOne(s, c);
    LimitKnown(s);
    SeesCurrent(s, n);
    assert OwnerKept(t, n) && OwnerKept(t, r);
    if n in t.bits[t.loaded.value] {
      assert GoodRemoved(t, n);
      RemovedOnce(t, r, n);
    }
  }

  /** The removed number of the first chain is not visible yet at the version of the call. */
  lemma {:induction false} SeenTwice(t: Table, n: nat, m: nat) returns (r: nat)
    requires TableInv(t) && Twice(t, n, m) && t.base.chain[n] < t.base.chain[m]
    ensures ReplacedRemovedAdded(t, r, m)
  {
    var s, c, d := t.base, t.base.chain[n], t.base.chain[m];
    LimitKnown(s);
    assert GoodNumber(s, n) && GoodNumber(s, m) && OwnerKept(t, n) && OwnerKept(t, m);
    assert SameOwner(t, c, d);
    r :| r in t.bits[t.loaded.value] && r < |s.chain| && s.chain[r] == c;
    assert GoodRemoved(t, r) && OwnerKept(t, r) && GoodNumber(s, r);
    if FromAt(Current(s), r) <= s.reader.version {
      RemovedWouldBeSeen(t, r);
      AtMostOne(s, n, r);
    }
  }

  lemma {:induction false} RemovedWouldBeSeen(t: Table, r: nat)
    requires TableInv(t) && t.base.reader.Ready? && r in Removed(t) && GoodRemoved(t, r)
    requires FromAt(Current(t.base), r) <= t.base.reader.version && t.base.chain[r] < t.base.reader.limit
    ensures Sees(t.base, r)
  {
    assert GoodReader(t.base) && GoodNumber(t.base, r);
    SeesCurrent(t.base, r);
  }

  /**
   * A call reports an identifier twice exactly if the identifier was replaced
   * after the call loaded the version, and then removed and added again before
   * it loaded the identifiers.
   */
  lemma {:induction false} TwiceIff(t: Table)
    requires TableInv(t)
    ensures (exists n: nat, m: nat :: Twice(t, n, m)) <==> exists r: nat, m: nat :: ReplacedRemovedAdded(t, r, m)
  {
    if n: nat, m: nat :| Twice(t, n, m) {
      LimitKnown(t.base);
      if t.base.chain[n] == t.base.chain[m] {
        AtMostOne(t.base, n, m);
      } else if t.base.chain[n] < t.base.chain[m] {
        var r := SeenTwice(t, n, m);
      } else {
        var r := SeenTwice(t, m, n);
      }
    }
    if r: nat, m: nat :| ReplacedRemovedAdded(t, r, m) {
      var n := ReplacedStillSeen(t, r, m);
    }
  }

  // -------------------------------------------------------------------- runs

  type Run = seq<Table>

  ghost predicate StepAt(run: Run, i: nat) {
    i + 1 < |run| && TableNext(run[i], run[i + 1])
  }

  ghost predicate IsTableRun(run: Run) {
    run != [] && TableInv(run[0]) && forall i :: 0 <= i < |run| - 1 ==> StepAt(run, i)
  }

  lemma {:induction false} TableRunKeeps(run: Run, i: nat)
    requires IsTableRun(run) && i < |run|
    ensures TableInv(run[i])
  {
    if i > 0 {
      TableRunKeeps(run, i - 1);
      assert StepAt(run, i - 1);
      TableNextKeeps(run[i - 1], run[i]);
    }
  }

  lemma {:induction false} LastTableStep(run: Run, k: nat)
    requires IsTableRun(run) && 0 < k < |run|
    ensures TableInv(run[k - 1]) && TableInv(run[k]) && TableNext(run[k - 1], run[k])
  {
    TableRunKeeps(run, k - 1);
    TableRunKeeps(run, k);
    assert StepAt(run, k - 1);
  }

  /** A call begins with the step after i and has not returned before k. */
  ghost predicate CallFrom(run: Run, i: nat, k: nat) {
    && i < k < |run| && LoadVersion(run[i].base, run[i + 1].base)
    && forall q :: i < q <= k ==> !run[q].base.reader.Outside?
  }

  /** A number that was removed when a call with this version began, and the first number it cannot know. */
  ghost predicate Gone(t: Table, version: nat, known: nat, r: nat) {
    && r in Removed(t) && t.base.arrays != [] && r < |t.base.chain| && known <= |t.base.chain|
    && FromAt(Current(t.base), r) <= version && t.base.version >= version
  }

  /** The call has not missed it. */
  ghost predicate GoneForCall(t: Table, version: nat, known: nat, r: nat) {
    && Gone(t, version, known, r) && !t.base.reader.Outside? && t.base.reader.version == version
    && (t.base.reader.HasLimit? || t.base.reader.Ready? ==> known <= t.base.reader.limit)
    && (t.loaded.Some? ==> t.loaded.value < |t.bits| && r in t.bits[t.loaded.value])
  }

  lemma {:induction false} GoneWrites(t: Table, t': Table, version: nat, known: nat, r: nat)
    requires TableInv(t) && TableWrites(t, t') && GoneForCall(t, version, known, r)
    ensures GoneForCall(t', version, known, r) && t'.base.chain[r] == t.base.chain[r]
  {
    assert GoodRemoved(t, r);
    if t'.base != t.base {
      assert Plan(t.base, t'.base) || Next(t.base, t'.base);
      NumberStays(t.base, t'.base, r);
      VersionStays(t.base, t'.base);
    }
  }

  lemma {:induction false} GoneReads(t: Table, t': Table, version: nat, known: nat, r: nat)
    requires TableInv(t) && TableReads(t, t') && GoneForCall(t, version, known, r) && !t'.base.reader.Outside?
    ensures GoneForCall(t', version, known, r) && t'.base.chain[r] == t.base.chain[r]
  {
    assert t'.base.chain == t.base.chain && t'.base.arrays == t.base.arrays && Removed(t') == Removed(t);
  }

  /** The removed number r of the chain c. */
  ghost predicate GoneIn(t: Table, version: nat, known: nat, r: nat, c: nat) {
    GoneForCall(t, version, known, r) && t.base.chain[r] == c
  }

  lemma {:induction false} GoneStep(t: Table, t': Table, version: nat, known: nat, r: nat, c: nat)
    requires TableInv(t) && TableNext(t, t') && GoneIn(t, version, known, r, c) && !t'.base.reader.Outside?
    ensures GoneIn(t', version, known, r, c)
  {
    if TableWrites(t, t') {
      GoneWrites(t, t', version, known, r);
    } else {
      GoneReads(t, t', version, known, r);
    }
  }

  lemma {:induction false} GoneRunStep(run: Run, k: nat, version: nat, known: nat, r: nat, c: nat)
    requires IsTableRun(run) && 0 < k < |run| && !run[k].base.reader.Outside?
    requires GoneIn(run[k - 1], version, known, r, c)
    ensures GoneIn(run[k], version, known, r, c)
  {
    LastTableStep(run, k);
    GoneStep(run[k - 1], run[k], version, known, r, c);
  }

  lemma {:induction false} GoneInRun(run: Run, i: nat, k: nat, version: nat, known: nat, r: nat, c: nat)
    requires IsTableRun(run) && i < k < |run| && forall q :: i < q <= k ==> !run[q].base.reader.Outside?
    requires GoneIn(run[i + 1], version, known, r, c)
    ensures GoneIn(run[k], version, known, r, c)
    decreases k
  {
    if k > i + 1 {
      GoneInRun(run, i, k - 1, version, known, r, c);
      GoneRunStep(run, k, version, known, r, c);
    }
  }

  lemma {:induction false} CallStarts(t: Table, t': Table, r: nat)
    requires TableInv(t) && TableNext(t, t') && LoadVersion(t.base, t'.base) && r in Removed(t) && GoodRemoved(t, r)
    ensures GoneIn(t', t.base.version, |t.base.chain|, r, t.base.chain[r])
  {
    assert t.base.reader.Outside? && t'.base.reader.HasVersion? && t'.base != t.base;
    assert t'.base.chain == t.base.chain && t'.base.arrays == t.base.arrays;
  }

  lemma {:induction false} CallKnows(run: Run, i: nat, k: nat, r: nat)
    requires IsTableRun(run) && CallFrom(run, i, k) && r in Removed(run[i])
    ensures r < |run[i].base.chain|
    ensures GoneIn(run[k], run[i].base.version, |run[i].base.chain|, r, run[i].base.chain[r])
  {
    TableRunKeeps(run, i);
    assert GoodRemoved(run[i], r);
    LastTableStep(run, i + 1);
    CallStarts(run[i], run[i + 1], r);
    GoneInRun(run, i, k, run[i].base.version, |run[i].base.chain|, r, run[i].base.chain[r]);
  }

  /** The call would see the removed number, but knows that it is removed. */
  lemma {:induction false} DeadUnseen(run: Run, i: nat, k: nat, c: nat) returns (r: nat)
    requires IsTableRun(run) && CallFrom(run, i, k) && run[k].base.reader.Ready? && run[k].loaded.Some?
    requires c < |run[i].base.chain| && DeadIn(run[i], Removed(run[i]), c)
    ensures r < |run[k].base.chain| && run[k].base.chain[r] == c && Sees(run[k].base, r) && !SeesLive(run[k], r)
  {
    r :| r in Removed(run[i]) && r < |run[i].base.chain| && run[i].base.chain[r] == c;
    CallKnows(run, i, k, r);
    TableRunKeeps(run, k);
    GoneIsSeen(run[k], run[i].base.version, |run[i].base.chain|, r);
  }

  lemma {:induction false} AbsentChain(run: Run, i: nat, k: nat, id: Id, c: nat)
    requires IsTableRun(run) && i <= k < |run| && !Present(run[i], id) && c < |run[i].base.chain|
    requires TableInv(run[k]) && c < |run[k].owner| && run[k].owner[c] == id && run[k].base.chain[c] == c
    ensures DeadIn(run[i], Removed(run[i]), c)
  {
    TableRunKeeps(run, i);
    FirstStays(run, i, k, c, run[i].base.chain[c], run[i].owner[c]);
    assert !IsLive(run[i], c);
  }

  /**
   * A call that begins when an identifier is not present reports it only under
   * numbers of chains that were begun since.
   */
  lemma {:induction false} RemovedUnseen(run: Run, i: nat, k: nat, id: Id, n: nat)
    requires IsTableRun(run) && CallFrom(run, i, k) && !Present(run[i], id)
    requires SeesLive(run[k], n) && n < |run[k].owner| && run[k].owner[n] == id
    ensures n < |run[k].base.chain| && run[k].base.chain[n] >= |run[i].base.chain|
  {
    TableRunKeeps(run, k);
    var t := run[k];
    assert OwnerKept(t, n) && GoodNumber(t.base, n);
    if t.base.chain[n] < |run[i].base.chain| {
      AbsentChain(run, i, k, id, t.base.chain[n]);
      var r := DeadUnseen(run, i, k, t.base.chain[n]);
      AtMostOne(t.base, n, r);
    }
  }

  lemma {:induction false} GoneIsSeen(t: Table, version: nat, known: nat, r: nat)
    requires TableInv(t) && GoneForCall(t, version, known, r) && t.base.reader.Ready? && t.base.chain[r] < known
    ensures Sees(t.base, r) && (t.loaded.Some? ==> !SeesLive(t, r))
  {
    assert GoodRemoved(t, r);
    RemovedWouldBeSeen(t, r);
  }

  lemma {:induction false} OwnedRunStep(run: Run, k: nat, c: nat, chain: nat, id: Id)
    requires IsTableRun(run) && 0 < k < |run| && IsOwned(run[k - 1], c, chain, id)
    ensures IsOwned(run[k], c, chain, id)
  {
    LastTableStep(run, k);
    OwnedStays(run[k - 1], run[k], c, chain, id);
  }

  /** Numbers keep their chain and their identifier. */
  lemma {:induction false} FirstStays(run: Run, i: nat, k: nat, c: nat, chain: nat, id: Id)
    requires IsTableRun(run) && i <= k < |run| && IsOwned(run[i], c, chain, id)
    ensures IsOwned(run[k], c, chain, id)
    decreases k
  {
    if k > i {
      FirstStays(run, i, k - 1, c, chain, id);
      OwnedRunStep(run, k, c, chain, id);
    }
  }

  lemma {:induction false} OwnersStay(t: Table, t': Table)
    requires TableInv(t) && TableNext(t, t')
    ensures t.base.chain <= t'.base.chain && t.owner <= t'.owner
  {
  }

  /** c has this chain and this identifier. */
  predicate IsOwned(t: Table, c: nat, chain: nat, id: Id) {
    c < |t.base.chain| == |t.owner| && t.base.chain[c] == chain && t.owner[c] == id
  }

  lemma {:induction false} OwnedStays(t: Table, t': Table, c: nat, chain: nat, id: Id)
    requires TableInv(t) && TableNext(t, t') && IsOwned(t, c, chain, id)
    ensures IsOwned(t', c, chain, id)
  {
    TableNextKeeps(t, t');
    OwnersStay(t, t');
  }

  // -------------------------------------------------------------- compaction

  /** The tables published so far, of which the last one is current, and the one the call has loaded. */
  datatype System = System(tables: seq<Table>, call: Option<nat>)

  function Last(s: System): Table
    requires s.tables != []
  {
    s.tables[|s.tables| - 1]
  }

  /** The identifiers of the first n numbers that are present, in order. */
  ghost function LiveOwners(t: Table, n: nat): seq<Id>
    requires n <= |t.owner|
  {
    if n == 0 then []
    else LiveOwners(t, n - 1) + if IsLive(t, n - 1) then [t.owner[n - 1]] else []
  }

  /** A table with these identifiers, and nothing replaced or removed. */
  function NewTable(ids: seq<Id>): Table {
    Table(State(0, seq(|ids|, i requires 0 <= i < |ids| => i), [Words([], [])], {}, Idle, Outside), ids, [{}], None)
  }

  ghost predicate WriteLast(s: System, s': System) {
    exists t' :: s.tables != [] && TableWrites(Last(s), t') && s' == s.(tables := s.tables[|s.tables| - 1 := t'])
  }

  /** compact publishes a copy with the present identifiers. */
  ghost predicate Compact(s: System, s': System) {
    && s.tables != [] && Last(s).base.writer.Idle? && |Last(s).owner| == |Last(s).base.chain|
    && s' == s.(tables := s.tables + [NewTable(LiveOwners(Last(s), |Last(s).owner|))])
  }

  /** A call stays with the table it has loaded. */
  ghost predicate LoadTable(s: System, s': System) {
    s.tables != [] && s.call.None? && s' == s.(call := Some(|s.tables| - 1))
  }

  ghost predicate ReadTable(s: System, s': System) {
    exists t' ::
      && s.call.Some? && s.call.value < |s.tables| && TableReads(s.tables[s.call.value], t')
      && s' == System(s.tables[s.call.value := t'], if t'.base.reader.Outside? then None else s.call)
  }

  ghost predicate SystemNext(s: System, s': System) {
    WriteLast(s, s') || Compact(s, s') || LoadTable(s, s') || ReadTable(s, s')
  }

  ghost predicate SystemInv(s: System) {
    s.tables != [] && forall k :: 0 <= k < |s.tables| ==> TableInv(s.tables[k])
  }

  lemma {:induction false} LiveOwnersAre(t: Table, n: nat, id: Id)
    requires n <= |t.owner|
    ensures id in LiveOwners(t, n) <==> exists c: nat :: c < n && IsLive(t, c) && t.owner[c] == id
  {
    if n > 0 {
      LiveOwnersAre(t, n - 1, id);
      if c: nat :| c < n && IsLive(t, c) && t.owner[c] == id {
        assert c < n - 1 || c == n - 1;
      }
    }
  }

  /** No identifier is present twice. */
  lemma {:induction false} LiveOwnersDiffer(t: Table, n: nat)
    requires TableInv(t) && n <= |t.owner|
    ensures forall i, j :: 0 <= i < j < |LiveOwners(t, n)| ==> LiveOwners(t, n)[i] != LiveOwners(t, n)[j]
  {
    if n > 0 {
      LiveOwnersDiffer(t, n - 1);
      LiveOwnersAre(t, n - 1, t.owner[n - 1]);
      if IsLive(t, n - 1) {
        forall c: nat | c < n - 1 && IsLive(t, c) ensures t.owner[c] != t.owner[n - 1] {
          assert SameOwner(t, c, n - 1) ==> DeadIn(t, Removed(t), c);
        }
      }
    }
  }

  lemma {:induction false} NewTableGood(ids: seq<Id>)
    requires forall i, j :: 0 <= i < j < |ids| ==> ids[i] != ids[j]
    ensures TableInv(NewTable(ids))
  {
    var t := NewTable(ids);
    forall n: nat | n < |ids| ensures GoodNumber(t.base, n) && OwnerKept(t, n) {
    }
    assert Inv(t.base);
  }

  /** Every step of the writer and of the call keeps the invariant of all tables. */
  lemma {:induction false} SystemNextKeeps(s: System, s': System)
    requires SystemInv(s) && SystemNext(s, s')
    ensures SystemInv(s')
  {
    if WriteLast(s, s') {
      var t' :| TableWrites(Last(s), t') && s' == s.(tables := s.tables[|s.tables| - 1 := t']);
      TableNextKeeps(Last(s), t');
    } else if Compact(s, s') {
      LiveOwnersDiffer(Last(s), |Last(s).owner|);
      NewTableGood(LiveOwners(Last(s), |Last(s).owner|));
    } else if ReadTable(s, s') {
      var t' :| TableReads(s.tables[s.call.value], t') &&
                s' == System(s.tables[s.call.value := t'], if t'.base.reader.Outside? then None else s.call);
      TableNextKeeps(s.tables[s.call.value], t');
    }
  }

  /** Only what the call has loaded differs. */
  predicate SameRules(t: Table, t': Table) {
    t' == t.(base := t.base.(reader := t'.base.reader), loaded := t'.loaded)
  }

  /** Nothing is written any more to a table that was replaced: a call that holds it is not affected. */
  lemma {:induction false} OldTableStays(s: System, s': System, k: nat)
    requires SystemInv(s) && SystemNext(s, s') && k < |s.tables| - 1
    ensures k < |s'.tables| - 1 && SameRules(s.tables[k], s'.tables[k])
  {
    if ReadTable(s, s') {
      var t' :| TableReads(s.tables[s.call.value], t') &&
                s' == System(s.tables[s.call.value := t'], if t'.base.reader.Outside? then None else s.call);
    }
  }

  /** Compaction keeps exactly the present identifiers, each once, and in their order. */
  lemma {:induction false} CompactKeepsPresent(s: System, s': System, id: Id)
    requires SystemInv(s) && Compact(s, s')
    ensures Present(Last(s'), id) <==> Present(Last(s), id)
  {
    var t, t' := Last(s), Last(s');
    LiveOwnersAre(t, |t.owner|, id);
    assert Removed(t') == {};
    if Present(t, id) {
      var ids := LiveOwners(t, |t.owner|);
      var i :| 0 <= i < |ids| && ids[i] == id;
      assert IsLive(t', i);
    }
  }

  /** The table can be compacted between any two writes to it, whatever the call has loaded. */
  lemma {:induction false} CanCompact(s: System) returns (s': System)
    requires SystemInv(s) && Last(s).base.writer.Idle?
    ensures Compact(s, s') && s'.call == s.call && s'.tables[..|s.tables|] == s.tables && SystemInv(s')
  {
    s' := s.(tables := s.tables + [NewTable(LiveOwners(Last(s), |Last(s).owner|))]);
    SystemNextKeeps(s, s');
  }

  // ------------------------------------------------------------------ example

  /** t is reached from the table with these identifiers. */
  ghost predicate ReachesTable(ids: seq<Id>, t: Table) {
    exists run :: IsTableRun(run) && run[0] == NewTable(ids) && run[|run| - 1] == t
  }

  lemma {:induction false} ReachTable(ids: seq<Id>, t: Table, t': Table)
    requires ReachesTable(ids, t) && TableNext(t, t')
    ensures ReachesTable(ids, t')
  {
    var run :| IsTableRun(run) && run[0] == NewTable(ids) && run[|run| - 1] == t;
    var more := run + [t'];
    forall i | 0 <= i < |more| - 1 ensures StepAt(more, i) {
      if i + 1 < |run| {
        assert StepAt(run, i) && more[i] == run[i] && more[i + 1] == run[i + 1];
      } else {
        assert more[i] == t && more[i + 1] == t';
      }
    }
    assert IsTableRun(more);
  }

  lemma {:induction false} ReachNewTable(ids: seq<Id>)
    requires forall i, j :: 0 <= i < j < |ids| ==> ids[i] != ids[j]
    ensures ReachesTable(ids, NewTable(ids))
  {
    NewTableGood(ids);
    var run := [NewTable(ids)];
    assert IsTableRun(run) && run[0] == NewTable(ids) && run[|run| - 1] == NewTable(ids);
  }

  /** A step of ReplaceRule that only stores. */
  lemma {:induction false} ReachStore(ids: seq<Id>, t: Table, base': State) returns (t': Table)
    requires ReachesTable(ids, t) && Stores(t.base, base')
    ensures ReachesTable(ids, t') && t' == t.(base := base')
  {
    t' := t.(base := base');
    assert Store(t, t');
    ReachTable(ids, t, t');
  }

  /** ReplaceRule stores the span and the order key of the new number, which is the next one. */
  lemma {:induction false} ReachSized(ids: seq<Id>, t: Table, j: Job) returns (t': Table)
    requires ReachesTable(ids, t) && t.base.writer == Planned(j) && t.base.arrays == [Words([], [])]
    ensures ReachesTable(ids, t')
    ensures var a := SetSpan(Grown(Words([], []), j.num + 1), j.num, Span(j.v, 0));
            t' == t.(base := t.base.(arrays := [Words([], []), SetOrder(a, j.num, j.order)], writer := OrderSet(j)))
  {
    var a := Grown(Words([], []), j.num + 1);
    var b1 := t.base.(arrays := t.base.arrays + [a], writer := Sized(j));
    assert SizeTo(t.base, b1, j.num + 1);
    var t1 := ReachStore(ids, t, b1);
    var b2 := WithCurrent(b1, SetSpan(a, j.num, Span(j.v, 0))).(writer := SpanSet(j));
    var t2 := ReachStore(ids, t1, b2);
    var b3 := WithCurrent(b2, SetOrder(SetSpan(a, j.num, Span(j.v, 0)), j.num, j.order)).(writer := OrderSet(j));
    t' := ReachStore(ids, t2, b3);
    assert b3.arrays == [Words([], []), SetOrder(SetSpan(a, j.num, Span(j.v, 0)), j.num, j.order)];
  }

  /** ReplaceRule stores the end of the old number and publishes the version. */
  lemma {:induction false} ReachPublished(ids: seq<Id>, t: Table, j: Job) returns (t': Table)
    requires ReachesTable(ids, t) && t.base.writer == Listed(j) && HasRoom(t.base, j.old_)
    ensures ReachesTable(ids, t') && t'.base.arrays != []
    ensures Current(t'.base) == SetOrder(SetSpan(Current(t.base), j.old_, Span(j.from, j.v)), j.old_, j.order)
    ensures t' == t.(base := t.base.(version := j.v, arrays := t'.base.arrays, inserted := t.base.inserted + {j.num},
                                     writer := Idle))
  {
    var b1 := t.base.(inserted := t.base.inserted + {j.num}, writer := Inserted(j));
    var t1 := ReachStore(ids, t, b1);
    var a := SetSpan(Current(b1), j.old_, Span(j.from, j.v));
    var b2 := WithCurrent(b1, a).(writer := OldSpanSet(j));
    var t2 := ReachStore(ids, t1, b2);
    var b3 := WithCurrent(b2, SetOrder(a, j.old_, j.order)).(writer := OldOrderSet(j));
    var t3 := ReachStore(ids, t2, b3);
    var b4 := b3.(version := j.v, writer := Idle);
    t' := ReachStore(ids, t3, b4);
  }

  /** The identifier of number 0 has been replaced since the call loaded the version. */
  ghost predicate Replaced(ids: seq<Id>, t: Table) {
    && ids != [] && ReachesTable(ids, t) && t.base.writer.Idle? && t.base.reader == HasVersion(0) && t.loaded.None?
    && t.base.chain == NewTable(ids).base.chain + [0] && t.owner == ids + [ids[0]] && t.base.arrays != []
    && FromAt(Current(t.base), 0) == 0 && UntilAt(Current(t.base), 0) == 1
    && FromAt(Current(t.base), |ids|) == 1 && UntilAt(Current(t.base), |ids|) == 0
    && FromAt(Current(t.base), |ids| + 1) == UntilAt(Current(t.base), |ids| + 1) == 0
  }

  lemma {:induction false} ReachReplaced(ids: seq<Id>) returns (t: Table)
    requires ids != [] && forall i, j :: 0 <= i < j < |ids| ==> ids[i] != ids[j]
    ensures Replaced(ids, t) && t.bits == [{}]
  {
    var t0 := NewTable(ids);
    ReachNewTable(ids);
    var t1 := t0.(base := t0.base.(reader := HasVersion(0)));
    assert LoadBase(t0, t1);
    ReachTable(ids, t0, t1);
    var j := Job(0, |ids|, 0, 0, 1);
    var t2 := t1.(base := t1.base.(writer := Planned(j)));
    assert PlanFor(t1.base, t2.base, 0) && PlanLive(t1, t2);
    ReachTable(ids, t1, t2);
    var t3 := ReachSized(ids, t2, j);
    var t4 := t3.(base := t3.base.(chain := t3.base.chain + [0], writer := Listed(j)), owner := ids + [ids[0]]);
    assert ListOwned(t3, t4);
    ReachTable(ids, t3, t4);
    t := ReachPublished(ids, t4, j);
  }

  /** Then it is removed and added again. */
  lemma {:induction false} ReachAddedAgain(ids: seq<Id>, t: Table) returns (t': Table)
    requires Replaced(ids, t) && t.bits == [{}]
    requires forall i, j :: 0 <= i < j < |ids| ==> ids[i] != ids[j]
    ensures ReachesTable(ids, t')
    ensures t' == t.(base := t.base.(chain := t.base.chain + [|ids| + 1]), owner := t.owner + [ids[0]],
                     bits := [{|ids|}])
  {
    var n := |ids|;
    var a := t.(bits := [{n}]);
    assert Removed(t) + {n} == {n};
    assert t.bits[|t.bits| - 1 := Removed(t) + {n}] == [{n}];
    assert SetBitOf(t, a, n);
    ReachTable(ids, t, a);
    t' := a.(base := a.base.(chain := a.base.chain + [n + 1]), owner := a.owner + [ids[0]]);
    assert n in Removed(a) && a.base.chain[n] == 0;
    forall c: nat | IsLive(a, c) ensures a.owner[c] != ids[0] {
    }
    assert AddNew(a, t');
    ReachTable(ids, a, t');
  }

  lemma {:induction false} ReachLoaded(ids: seq<Id>, t: Table) returns (t': Table)
    requires ReachesTable(ids, t) && t.base.reader == HasVersion(0) && t.loaded.None? && t.base.arrays != []
    requires t.bits != []
    ensures ReachesTable(ids, t')
    ensures t' == t.(base := t.base.(reader := ReplaceProtocol.Ready(0, |t.base.chain|, |t.base.arrays| - 1)),
                     loaded := Some(|t.bits| - 1))
  {
    var a := t.(base := t.base.(reader := HasLimit(0, |t.base.chain|)));
    assert LoadBase(t, a);
    ReachTable(ids, t, a);
    var b := a.(base := a.base.(reader := ReplaceProtocol.Ready(0, |t.base.chain|, |t.base.arrays| - 1)));
    assert LoadBase(a, b);
    ReachTable(ids, a, b);
    t' := b.(loaded := Some(|b.bits| - 1));
    assert LoadBits(b, t');
    ReachTable(ids, b, t');
  }

  /**
   * It happens: the identifier of number 0 is reported under its old number and
   * under the one it was added with again. With eight identifiers or more, no
   * compaction comes in between.
   */
  lemma {:induction false} TwiceHappens(ids: seq<Id>)
    requires ids != [] && forall i, j :: 0 <= i < j < |ids| ==> ids[i] != ids[j]
    ensures exists t :: ReachesTable(ids, t) && Twice(t, 0, |ids| + 1)
  {
    var a := ReachReplaced(ids);
    var b := ReachAddedAgain(ids, a);
    var t := ReachLoaded(ids, b);
    assert Twice(t, 0, |ids| + 1);
  }
}
