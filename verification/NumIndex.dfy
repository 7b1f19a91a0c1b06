/** The index of the numeric leaves of a group (number.go). */
module NumIndex {
  import opened ByteStrings
  import opened Numbers
  import opened Sorting

  datatype NumEntry = NumEntry(iv: Interval, leaf: nat)

  /** Entries sorted by a bound and up to MAX_RECENT unsorted recent additions. */
  datatype NumList = NumList(sorted: seq<NumEntry>, recent: seq<NumEntry>, maxHi: seq<Num>)

  datatype Index = Index(lower: NumList, upper: NumList, ranges: NumList, points: NumList)

  const MAX_RECENT: nat := 64

  const EMPTY_LIST := NumList([], [], [])
  const EMPTY := Index(EMPTY_LIST, EMPTY_LIST, EMPTY_LIST, EMPTY_LIST)

  /** The bound a list is sorted by. */
  datatype Side = Lo | Hi

  function Bound(side: Side, e: NumEntry): Num {
    match side
    case Lo => e.iv.lo
    case Hi => e.iv.hi
  }

  predicate LoLeq(a: NumEntry, b: NumEntry) {
    AtMost(a.iv.lo, b.iv.lo)
  }

  predicate HiLeq(a: NumEntry, b: NumEntry) {
    AtMost(a.iv.hi, b.iv.hi)
  }

  function ByBound(side: Side): (NumEntry, NumEntry) -> bool {
    match side
    case Lo => LoLeq
    case Hi => HiLeq
  }

  ghost predicate Ordered(side: Side, s: seq<NumEntry>) {
    forall i, j :: 0 <= i < j < |s| ==> AtMost(Bound(side, s[i]), Bound(side, s[j]))
  }

  function Max(a: Num, b: Num): Num {
    if Less(a, b) then b else a
  }

  /** The largest upper bound among the first n entries. */
  function PrefixMax(s: seq<NumEntry>, n: nat): Num
    requires n <= |s|
  {
    if n == 0 then NegInf else Max(PrefixMax(s, n - 1), s[n - 1].iv.hi)
  }

  ghost predicate ValidList(l: NumList, side: Side, withMaxHi: bool) {
    && Ordered(side, l.sorted)
    && |l.recent| < MAX_RECENT
    && (withMaxHi ==> |l.maxHi| == |l.sorted| && forall i :: 0 <= i < |l.maxHi| ==>
                                                   l.maxHi[i] == PrefixMax(l.sorted, i + 1))
  }

  ghost function Contents(l: NumList): multiset<NumEntry> {
    multiset(l.sorted) + multiset(l.recent)
  }

  lemma {:induction false} BoundOrder(side: Side)
    ensures Preorder(ByBound(side))
    ensures forall s :: SortedBy(ByBound(side), s) <==> Ordered(side, s)
  {
    var leq := ByBound(side);
    forall a, b, c ensures leq(a, b) || leq(b, a) ensures leq(a, b) && leq(b, c) ==> leq(a, c) {
    }
    forall s: seq<NumEntry> ensures SortedBy(leq, s) <==> Ordered(side, s) {
      forall i, j | 0 <= i < j < |s| ensures leq(s[i], s[j]) <==> AtMost(Bound(side, s[i]), Bound(side, s[j])) {
      }
    }
  }

  /** What the merge loop keeps once a[..i] and b[..j] are merged. */
  ghost predicate Merging(side: Side, a: seq<NumEntry>, i: nat, b: seq<NumEntry>, j: nat, merged: seq<NumEntry>) {
    && i <= |a| && j <= |b| && Ordered(side, a) && Ordered(side, b) && Ordered(side, merged)
    && multiset(merged) == multiset(a[..i]) + multiset(b[..j])
    && Below(side, merged, a[i..]) && Below(side, merged, b[j..])
  }

  lemma {:induction false} MergeStep(side: Side, a: seq<NumEntry>, i: nat, b: seq<NumEntry>, j: nat,
                                     merged: seq<NumEntry>)
    requires Merging(side, a, i, b, j, merged) && i < |a|
    requires j < |b| ==> AtMost(Bound(side, a[i]), Bound(side, b[j]))
    ensures Merging(side, a, i + 1, b, j, merged + [a[i]])
  {
    var e := a[i];
    assert a[..i + 1] == a[..i] + [e];
    assert a[i..][0] == e && a[i..][1..] == a[i + 1..];
    assert forall k :: 0 <= k < |b[j..]| ==> b[j..][k] == b[j + k];
    AppendSmallest(side, merged, a[i..], b[j..]);
  }

  lemma {:induction false} MergingSwapped(side: Side, a: seq<NumEntry>, i: nat, b: seq<NumEntry>, j: nat,
                                          merged: seq<NumEntry>)
    requires Merging(side, a, i, b, j, merged)
    ensures Merging(side, b, j, a, i, merged)
  {
  }

  lemma {:induction false} MergeRest(side: Side, a: seq<NumEntry>, i: nat, b: seq<NumEntry>, merged: seq<NumEntry>)
    requires Merging(side, a, i, b, |b|, merged)
    ensures Ordered(side, merged + a[i..]) && multiset(merged + a[i..]) == multiset(a) + multiset(b)
  {
    assert a == a[..i] + a[i..] && b[..|b|] == b;
  }

  lemma {:induction false} MergeStart(side: Side, a: seq<NumEntry>, b: seq<NumEntry>)
    requires Ordered(side, a) && Ordered(side, b)
    ensures Merging(side, a, 0, b, 0, [])
  {
  }

  /** The merged list once one of the two is used up. */
  lemma {:induction false} MergeEnd(side: Side, a: seq<NumEntry>, i: nat, b: seq<NumEntry>, j: nat,
                                    merged: seq<NumEntry>)
    requires Merging(side, a, i, b, j, merged) && (i == |a| || j == |b|)
    ensures var all := merged + a[i..] + b[j..];
            Ordered(side, all) && multiset(all) == multiset(a) + multiset(b)
  {
    if j == |b| {
      MergeRest(side, a, i, b, merged);
      assert merged + a[i..] + b[j..] == merged + a[i..];
    } else {
      MergingSwapped(side, a, i, b, j, merged);
      MergeRest(side, b, j, a, merged);
      assert merged + a[i..] + b[j..] == merged + b[j..];
    }
  }

  /** The merge loop: both lists are sorted, and so is their union. */
  method Merge(side: Side, a: seq<NumEntry>, b: seq<NumEntry>) returns (merged: seq<NumEntry>)
    requires Ordered(side, a) && Ordered(side, b)
    ensures Ordered(side, merged) && multiset(merged) == multiset(a) + multiset(b)
  {
    merged := [];
    var i, j := 0, 0;
    MergeStart(side, a, b);
    while i < |a| && j < |b|
      invariant i <= |a| && j <= |b| && Merging(side, a, i, b, j, merged)
    {
      var fromA := AtMost(Bound(side, a[i]), Bound(side, b[j]));
      ghost var before := merged;
      merged := merged + [if fromA then a[i] else b[j]];
      MergeNext(side, a, i, b, j, before, merged);
      if fromA {
        i := i + 1;
      } else {
        j := j + 1;
      }
    }
    MergeEnd(side, a, i, b, j, merged);
    merged := merged + a[i..] + b[j..];
  }

  lemma {:induction false} MergeNext(side: Side, a: seq<NumEntry>, i: nat, b: seq<NumEntry>, j: nat,
                                     before: seq<NumEntry>, merged: seq<NumEntry>)
    requires Merging(side, a, i, b, j, before) && i < |a| && j < |b|
    requires merged == before + [if AtMost(Bound(side, a[i]), Bound(side, b[j])) then a[i] else b[j]]
    ensures if AtMost(Bound(side, a[i]), Bound(side, b[j])) then Merging(side, a, i + 1, b, j, merged)
            else Merging(side, a, i, b, j + 1, merged)
  {
    if AtMost(Bound(side, a[i]), Bound(side, b[j])) {
      MergeStep(side, a, i, b, j, before);
    } else {
      MergingSwapped(side, a, i, b, j, before);
      MergeStep(side, b, j, a, i, before);
      MergingSwapped(side, b, j + 1, a, i, merged);
    }
  }

  ghost predicate Below(side: Side, s: seq<NumEntry>, t: seq<NumEntry>) {
    forall i, j :: 0 <= i < |s| && 0 <= j < |t| ==> AtMost(Bound(side, s[i]), Bound(side, t[j]))
  }

  lemma {:induction false} AppendSmallest(side: Side, merged: seq<NumEntry>, s: seq<NumEntry>, t: seq<NumEntry>)
    requires Ordered(side, merged) && Below(side, merged, s) && Below(side, merged, t)
    requires s != [] && Ordered(side, s) && Ordered(side, t)
    requires t != [] ==> AtMost(Bound(side, s[0]), Bound(side, t[0]))
    ensures Ordered(side, merged + [s[0]])
    ensures Below(side, merged + [s[0]], s[1..]) && Below(side, merged + [s[0]], t)
  {
    forall j | 0 <= j < |t| ensures AtMost(Bound(side, s[0]), Bound(side, t[j])) {
      assert j == 0 || AtMost(Bound(side, t[0]), Bound(side, t[j]));
    }
  }

  /** numList.with: a copy of l that also contains e. */
  method With(l: NumList, e: NumEntry, side: Side, withMaxHi: bool) returns (m: NumList)
    requires ValidList(l, side, withMaxHi)
    ensures ValidList(m, side, withMaxHi) && Contents(m) == Contents(l) + multiset{e}
  {
    var recent := l.recent + [e];
    if |recent| < MAX_RECENT {
      return NumList(l.sorted, recent, l.maxHi);
    }
    BoundOrder(side);
    SortCorrect(ByBound(side), recent);
    var merged := Merge(side, l.sorted, Sort(ByBound(side), recent));
    var maxHi := [];
    if withMaxHi {
      maxHi := RunningMax(merged);
    }
    return NumList(merged, [], maxHi);
  }

  method RunningMax(s: seq<NumEntry>) returns (maxHi: seq<Num>)
    ensures |maxHi| == |s| && forall i :: 0 <= i < |s| ==> maxHi[i] == PrefixMax(s, i + 1)
  {
    maxHi := [];
    var hi := NegInf;
    for i := 0 to |s|
      invariant |maxHi| == i && hi == PrefixMax(s, i)
      invariant forall j :: 0 <= j < i ==> maxHi[j] == PrefixMax(s, j + 1)
    {
      hi := Max(hi, s[i].iv.hi);
      maxHi := maxHi + [hi];
    }
  }

  // ------------------------------------------------------------ the index

  ghost predicate Nonempty(iv: Interval) {
    Less(iv.lo, iv.hi) || (iv.lo == iv.hi && !iv.loOpen && !iv.hiOpen)
  }

  ghost predicate Valid(n: Index) {
    && ValidList(n.lower, Lo, false) && ValidList(n.upper, Hi, false)
    && ValidList(n.ranges, Lo, true) && ValidList(n.points, Lo, false)
    && (forall e :: e in Contents(n.points) ==> e.iv.lo == e.iv.hi && !e.iv.loOpen && !e.iv.hiOpen)
  }

  ghost function Entries(n: Index): multiset<NumEntry> {
    Contents(n.lower) + Contents(n.upper) + Contents(n.ranges) + Contents(n.points)
  }

  /** numIndex.with: a copy of n that also contains iv for leaf l. */
  method Add(n: Index, iv: Interval, l: nat) returns (c: Index)
    requires Valid(n) && Nonempty(iv)
    ensures Valid(c) && Entries(c) == Entries(n) + multiset{NumEntry(iv, l)}
  {
    var e := NumEntry(iv, l);
    var list;
    if iv.lo == iv.hi {
      list := With(n.points, e, Lo, false);
      return n.(points := list);
    } else if iv.hi == PosInf {
      list := With(n.lower, e, Lo, false);
      return n.(lower := list);
    } else if iv.lo == NegInf {
      list := With(n.upper, e, Hi, false);
      return n.(upper := list);
    }
    list := With(n.ranges, e, Lo, true);
    return n.(ranges := list);
  }

  /** Some entry of s for leaf l contains x. */
  ghost predicate Found(s: seq<NumEntry>, x: Num, l: nat) {
    exists e :: e in s && e.leaf == l && e.iv.Contains(x)
  }

  ghost predicate Collects(s: seq<NumEntry>, x: Num, before: seq<nat>, hits: seq<nat>) {
    forall l :: l in hits <==> l in before || Found(s, x, l)
  }

  lemma {:induction false} CollectsMore(s: seq<NumEntry>, e: NumEntry, x: Num, before: seq<nat>, hits: seq<nat>)
    requires Collects(s, x, before, hits)
    ensures Collects(s + [e], x, before, if e.iv.Contains(x) then hits + [e.leaf] else hits)
    ensures Collects([e] + s, x, before, if e.iv.Contains(x) then hits + [e.leaf] else hits)
  {
    assert forall d :: d in s + [e] <==> d in s || d == e;
    assert forall d :: d in [e] + s <==> d in s || d == e;
    forall l ensures Found(s + [e], x, l) <==> Found(s, x, l) || (e.leaf == l && e.iv.Contains(x)) {
    }
    forall l ensures Found([e] + s, x, l) <==> Found(s, x, l) || (e.leaf == l && e.iv.Contains(x)) {
    }
  }

  /** Entries that do not contain x do not matter. */
  lemma {:induction false} CollectsIgnoring(s: seq<NumEntry>, rest: seq<NumEntry>, x: Num, before: seq<nat>,
                                            hits: seq<nat>)
    requires Collects(s, x, before, hits)
    requires forall i :: 0 <= i < |rest| ==> !rest[i].iv.Contains(x)
    ensures Collects(s + rest, x, before, hits) && Collects(rest + s, x, before, hits)
  {
    forall l ensures Found(s + rest, x, l) <==> Found(s, x, l) {
    }
    forall l ensures Found(rest + s, x, l) <==> Found(s, x, l) {
    }
  }

  method CollectRecent(s: seq<NumEntry>, x: Num, before: seq<nat>) returns (hits: seq<nat>)
    ensures Collects(s, x, before, hits)
  {
    hits := before;
    for i := 0 to |s|
      invariant Collects(s[..i], x, before, hits)
    {
      CollectsMore(s[..i], s[i], x, before, hits);
      assert s[..i + 1] == s[..i] + [s[i]];
      if s[i].iv.Contains(x) {
        hits := hits + [s[i].leaf];
      }
    }
    assert s[..|s|] == s;
  }

  method CollectLower(s: seq<NumEntry>, x: Num, before: seq<nat>) returns (hits: seq<nat>)
    requires Ordered(Lo, s)
    ensures Collects(s, x, before, hits)
  {
    hits := before;
    var i := 0;
    while i < |s| && !Less(x, s[i].iv.lo)
      invariant i <= |s| && Collects(s[..i], x, before, hits)
    {
      CollectsMore(s[..i], s[i], x, before, hits);
      assert s[..i + 1] == s[..i] + [s[i]];
      if s[i].iv.Contains(x) {
        hits := hits + [s[i].leaf];
      }
      i := i + 1;
    }
    forall j | i <= j < |s| ensures !s[j].iv.Contains(x) {
      assert j == i || AtMost(Bound(Lo, s[i]), Bound(Lo, s[j]));
    }
    CollectsIgnoring(s[..i], s[i..], x, before, hits);
    assert s == s[..i] + s[i..];
  }

  method CollectUpper(s: seq<NumEntry>, x: Num, before: seq<nat>) returns (hits: seq<nat>)
    requires Ordered(Hi, s)
    ensures Collects(s, x, before, hits)
  {
    hits := before;
    var i := |s|;
    assert s[i..] == [];
    while i > 0 && !Less(s[i - 1].iv.hi, x)
      invariant i <= |s| && Collects(s[i..], x, before, hits)
    {
      i := i - 1;
      CollectsMore(s[i + 1..], s[i], x, before, hits);
      assert s[i..] == [s[i]] + s[i + 1..];
      if s[i].iv.Contains(x) {
        hits := hits + [s[i].leaf];
      }
    }
    forall j | 0 <= j < i ensures !s[j].iv.Contains(x) {
      assert j == i - 1 || AtMost(Bound(Hi, s[j]), Bound(Hi, s[i - 1]));
    }
    CollectsIgnoring(s[i..], s[..i], x, before, hits);
    assert s == s[..i] + s[i..];
  }

  /** searchLo: the number of entries whose lower bound is less than x, or equal to it if orEqual. */
  method SearchLo(s: seq<NumEntry>, x: Num, orEqual: bool) returns (i: nat)
    requires Ordered(Lo, s)
    ensures i <= |s|
    ensures forall k :: 0 <= k < |s| ==> (k < i <==> Less(s[k].iv.lo, x) || (orEqual && s[k].iv.lo == x))
  {
    i := 0;
    var j := |s|;
    while i < j
      invariant i <= j <= |s|
      invariant forall k :: 0 <= k < i ==> Less(s[k].iv.lo, x) || (orEqual && s[k].iv.lo == x)
      invariant forall k :: j <= k < |s| ==> !(Less(s[k].iv.lo, x) || (orEqual && s[k].iv.lo == x))
    {
      var m := (i + j) / 2;
      var lo := s[m].iv.lo;
      assert forall k :: 0 <= k < m ==> AtMost(Bound(Lo, s[k]), Bound(Lo, s[m]));
      assert forall k :: m < k < |s| ==> AtMost(Bound(Lo, s[m]), Bound(Lo, s[k]));
      if Less(lo, x) || (orEqual && lo == x) {
        i := m + 1;
      } else {
        j := m;
      }
    }
  }

  lemma {:induction false} PrefixMaxBounds(s: seq<NumEntry>, n: nat, i: nat)
    requires i < n <= |s|
    ensures AtMost(s[i].iv.hi, PrefixMax(s, n))
  {
    if i < n - 1 {
      PrefixMaxBounds(s, n - 1, i);
    }
  }

  /** Scanning the ranges backwards can stop once no earlier range reaches x. */
  method CollectRanges(l: NumList, x: Num, before: seq<nat>) returns (hits: seq<nat>)
    requires ValidList(l, Lo, true)
    ensures Collects(l.sorted, x, before, hits)
  {
    var rs := l.sorted;
    hits := before;
    var i := SearchLo(rs, x, true);
    CollectsIgnoring([], rs[i..], x, before, hits);
    assert rs[i..] + [] == rs[i..];
    while i > 0 && !Less(l.maxHi[i - 1], x)
      invariant i <= |rs| && Collects(rs[i..], x, before, hits)
    {
      i := i - 1;
      CollectsMore(rs[i + 1..], rs[i], x, before, hits);
      assert rs[i..] == [rs[i]] + rs[i + 1..];
      if rs[i].iv.Contains(x) {
        hits := hits + [rs[i].leaf];
      }
    }
    forall j | 0 <= j < i ensures !rs[j].iv.Contains(x) {
      PrefixMaxBounds(rs, i, j);
    }
    CollectsIgnoring(rs[i..], rs[..i], x, before, hits);
    assert rs == rs[..i] + rs[i..];
  }

  /** The points equal to x follow each other. */
  method CollectPoints(ps: seq<NumEntry>, x: Num, before: seq<nat>) returns (hits: seq<nat>)
    requires Ordered(Lo, ps)
    requires forall e :: e in ps ==> e.iv.lo == e.iv.hi && !e.iv.loOpen && !e.iv.hiOpen
    ensures Collects(ps, x, before, hits)
  {
    hits := before;
    var i := SearchLo(ps, x, false);
    CollectsIgnoring([], ps[..i], x, before, hits);
    assert ps[..i] + [] == ps[..i];
    while i < |ps| && ps[i].iv.lo == x
      invariant i <= |ps| && Collects(ps[..i], x, before, hits)
      invariant i < |ps| ==> !Less(ps[i].iv.lo, x)
    {
      CollectsMore(ps[..i], ps[i], x, before, hits);
      assert ps[..i + 1] == ps[..i] + [ps[i]];
      assert i + 1 < |ps| ==> AtMost(Bound(Lo, ps[i]), Bound(Lo, ps[i + 1]));
      hits := hits + [ps[i].leaf];
      i := i + 1;
    }
    forall j | i <= j < |ps| ensures !ps[j].iv.Contains(x) {
      assert j == i || AtMost(Bound(Lo, ps[i]), Bound(Lo, ps[j]));
    }
    CollectsIgnoring(ps[..i], ps[i..], x, before, hits);
    assert ps == ps[..i] + ps[i..];
  }

  lemma {:induction false} CollectsBoth(s: seq<NumEntry>, t: seq<NumEntry>, x: Num, before: seq<nat>, mid: seq<nat>,
                                        hits: seq<nat>)
    requires Collects(s, x, before, mid) && Collects(t, x, mid, hits)
    ensures Collects(s + t, x, before, hits)
  {
    forall l ensures Found(s + t, x, l) <==> Found(s, x, l) || Found(t, x, l) {
      assert forall e :: e in s + t <==> e in s || e in t;
    }
  }

  ghost function AllSorted(n: Index): seq<NumEntry> {
    n.lower.sorted + n.upper.sorted + n.ranges.sorted + n.points.sorted
  }

  ghost function AllRecent(n: Index): seq<NumEntry> {
    n.lower.recent + n.upper.recent + n.ranges.recent + n.points.recent
  }

  method CollectAllSorted(n: Index, x: Num, before: seq<nat>) returns (hits: seq<nat>)
    requires Valid(n)
    ensures Collects(AllSorted(n), x, before, hits)
  {
    var a := CollectLower(n.lower.sorted, x, before);
    var b := CollectUpper(n.upper.sorted, x, a);
    CollectsBoth(n.lower.sorted, n.upper.sorted, x, before, a, b);
    var c := CollectRanges(n.ranges, x, b);
    CollectsBoth(n.lower.sorted + n.upper.sorted, n.ranges.sorted, x, before, b, c);
    hits := CollectPoints(n.points.sorted, x, c);
    CollectsBoth(n.lower.sorted + n.upper.sorted + n.ranges.sorted, n.points.sorted, x, before, c, hits);
  }

  method CollectAllRecent(n: Index, x: Num, before: seq<nat>) returns (hits: seq<nat>)
    ensures Collects(AllRecent(n), x, before, hits)
  {
    var a := CollectRecent(n.lower.recent, x, before);
    var b := CollectRecent(n.upper.recent, x, a);
    CollectsBoth(n.lower.recent, n.upper.recent, x, before, a, b);
    var c := CollectRecent(n.ranges.recent, x, b);
    CollectsBoth(n.lower.recent + n.upper.recent, n.ranges.recent, x, before, b, c);
    hits := CollectRecent(n.points.recent, x, c);
    CollectsBoth(n.lower.recent + n.upper.recent + n.ranges.recent, n.points.recent, x, before, c, hits);
  }

  lemma {:induction false} AllEntries(n: Index, e: NumEntry)
    ensures e in Entries(n) <==> e in AllSorted(n) || e in AllRecent(n)
  {
    assert e in Contents(n.lower) <==> e in n.lower.sorted || e in n.lower.recent;
    assert e in Contents(n.upper) <==> e in n.upper.sorted || e in n.upper.recent;
    assert e in Contents(n.ranges) <==> e in n.ranges.sorted || e in n.ranges.recent;
    assert e in Contents(n.points) <==> e in n.points.sorted || e in n.points.recent;
  }

  /** collect: exactly the leaves whose intervals contain x. */
  method Collect(n: Index, x: Num, before: seq<nat>) returns (hits: seq<nat>)
    requires Valid(n)
    ensures forall l :: l in hits <==> l in before || exists e :: e in Entries(n) && e.leaf == l && e.iv.Contains(x)
  {
    var found := CollectAllSorted(n, x, before);
    hits := CollectAllRecent(n, x, found);
    forall e ensures e in Entries(n) <==> e in AllSorted(n) || e in AllRecent(n) {
      AllEntries(n, e);
    }
  }
}
