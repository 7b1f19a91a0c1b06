/** Sorting and removing duplicates, as the slices package does. */
module Sorting {

  /** A total preorder, the kind of comparison slices.SortFunc expects. */
  ghost predicate Preorder<T(!new)>(leq: (T, T) -> bool) {
    && (forall x, y :: leq(x, y) || leq(y, x))
    && (forall x, y, z :: leq(x, y) && leq(y, z) ==> leq(x, z))
  }

  ghost predicate SortedBy<T>(leq: (T, T) -> bool, s: seq<T>) {
    forall i, j :: 0 <= i < j < |s| ==> leq(s[i], s[j])
  }

  function Insert<T>(leq: (T, T) -> bool, x: T, s: seq<T>): seq<T> {
    if s == [] || leq(x, s[0]) then [x] + s else [s[0]] + Insert(leq, x, s[1..])
  }

  function Sort<T>(leq: (T, T) -> bool, s: seq<T>): seq<T> {
    if s == [] then [] else Insert(leq, s[0], Sort(leq, s[1..]))
  }

  lemma {:induction false} InsertContent<T>(leq: (T, T) -> bool, x: T, s: seq<T>)
    ensures multiset(Insert(leq, x, s)) == multiset(s) + multiset{x}
  {
    if s != [] && !leq(x, s[0]) {
      InsertContent(leq, x, s[1..]);
      assert s == [s[0]] + s[1..];
    }
  }

  lemma {:induction false} InsertSorted<T(!new)>(leq: (T, T) -> bool, x: T, s: seq<T>)
    requires Preorder(leq) && SortedBy(leq, s)
    ensures SortedBy(leq, Insert(leq, x, s))
  {
    if s == [] || leq(x, s[0]) {
    } else {
      var r := Insert(leq, x, s[1..]);
      InsertSorted(leq, x, s[1..]);
      InsertContent(leq, x, s[1..]);
      forall i | 0 <= i < |r| ensures leq(s[0], r[i]) {
        assert r[i] in multiset(r);
        assert r[i] == x || r[i] in s[1..];
      }
    }
  }

  lemma {:induction false} SortContent<T>(leq: (T, T) -> bool, s: seq<T>)
    ensures multiset(Sort(leq, s)) == multiset(s)
  {
    if s != [] {
      SortContent(leq, s[1..]);
      InsertContent(leq, s[0], Sort(leq, s[1..]));
      assert s == [s[0]] + s[1..];
    }
  }

  lemma {:induction false} SortOrder<T(!new)>(leq: (T, T) -> bool, s: seq<T>)
    requires Preorder(leq)
    ensures SortedBy(leq, Sort(leq, s))
  {
    if s != [] {
      SortOrder(leq, s[1..]);
      InsertSorted(leq, s[0], Sort(leq, s[1..]));
    }
  }

  /** The result is sorted and has the same elements, each as often. */
  lemma {:induction false} SortCorrect<T(!new)>(leq: (T, T) -> bool, s: seq<T>)
    requires Preorder(leq)
    ensures SortedBy(leq, Sort(leq, s))
    ensures multiset(Sort(leq, s)) == multiset(s)
    ensures |Sort(leq, s)| == |s|
    ensures forall x :: x in Sort(leq, s) <==> x in s
  {
    SortContent(leq, s);
    SortOrder(leq, s);
    var r := Sort(leq, s);
    assert |multiset(r)| == |r| && |multiset(s)| == |s|;
    forall x ensures x in r <==> x in s {
      assert x in multiset(r) <==> x in multiset(s);
    }
  }

  lemma {:induction false} SortSorted<T>(leq: (T, T) -> bool, s: seq<T>)
    requires SortedBy(leq, s)
    ensures Sort(leq, s) == s
  {
    if s != [] {
      SortSorted(leq, s[1..]);
      assert s == [s[0]] + s[1..];
    }
  }

  ghost predicate Distinct<T>(s: seq<T>) {
    forall i, j :: 0 <= i < j < |s| ==> s[i] != s[j]
  }

  /** slices.CompactFunc: drops every element equivalent to the one before it. */
  function Compact<T>(same: (T, T) -> bool, s: seq<T>): seq<T> {
    if |s| < 2 then s
    else Compact(same, s[..|s| - 1]) + if same(s[|s| - 2], s[|s| - 1]) then [] else [s[|s| - 1]]
  }

  lemma {:induction false} CompactMembers<T(!new)>(same: (T, T) -> bool, s: seq<T>)
    ensures forall x :: x in Compact(same, s) ==> x in s
  {
    if |s| >= 2 {
      CompactMembers(same, s[..|s| - 1]);
    }
  }

  /** Every element of s keeps a representative. */
  lemma {:induction false} CompactCovers<T(!new)>(same: (T, T) -> bool, s: seq<T>, i: nat) returns (y: T)
    requires i < |s|
    requires forall x :: same(x, x)
    requires forall x, y, z :: same(x, y) && same(y, z) ==> same(x, z)
    requires forall x, y :: same(x, y) ==> same(y, x)
    ensures y in Compact(same, s) && same(s[i], y)
  {
    var n := |s|;
    if i == n - 1 && (n < 2 || !same(s[n - 2], s[n - 1])) {
      y := s[i];
    } else if i == n - 1 {
      y := CompactCovers(same, s[..n - 1], i - 1);
      assert same(s[i], s[i - 1]) && same(s[i - 1], y);
    } else {
      y := CompactCovers(same, s[..n - 1], i);
    }
  }

  /** On a sorted sequence, no two of the remaining elements are equivalent. */
  lemma {:induction false} CompactStrict<T(!new)>(leq: (T, T) -> bool, same: (T, T) -> bool, s: seq<T>)
    requires SortedBy(leq, s)
    requires forall x, y, z :: leq(x, y) && leq(y, z) ==> leq(x, z)
    requires forall x, y :: same(x, y) <==> leq(x, y) && leq(y, x)
    ensures forall i, j :: 0 <= i < j < |Compact(same, s)| ==>
      leq(Compact(same, s)[i], Compact(same, s)[j]) && !same(Compact(same, s)[i], Compact(same, s)[j])
  {
    var n := |s|;
    if n >= 2 {
      var c, last := Compact(same, s[..n - 1]), s[n - 1];
      CompactStrict(leq, same, s[..n - 1]);
      if !same(s[n - 2], last) {
        forall i | 0 <= i < |c| ensures leq(c[i], last) && !same(c[i], last) {
          CompactMembers(same, s[..n - 1]);
          assert c[i] in s[..n - 1];
          var k :| 0 <= k < n - 1 && s[k] == c[i];
          assert leq(s[k], last);
          assert k == n - 2 || leq(s[k], s[n - 2]);
        }
      }
    }
  }
}
