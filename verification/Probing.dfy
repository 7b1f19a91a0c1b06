/**
 * Open addressing with linear probing, shared by the hash maps of
 * concurrent.go and the span table of engine.go. A table is seen as the
 * keys in its slots; the hash of a key is an arbitrary number.
 */
module Probing {
  import opened ByteStrings

  type Keys = seq<Option<Bytes>>

  type Hash = Bytes -> nat

  /** The slot where probing for a key with hash h starts: its hash, masked. */
  function Start(h: nat, n: nat): (i: nat)
    requires n > 0
    ensures i < n
  {
    h % n
  }

  /** The slot at distance d from slot i, wrapping around. */
  function Pos(i: nat, d: nat, n: nat): (j: nat)
    requires i < n && d < n
    ensures j < n
  {
    if i + d < n then i + d else i + d - n
  }

  function Distance(i: nat, j: nat, n: nat): (d: nat)
    requires i < n && j < n
    ensures d < n && Pos(i, d, n) == j
  {
    if i <= j then j - i else j + n - i
  }

  /** All slots at distances below d from i hold keys, none of them key. */
  ghost predicate Passed(ks: Keys, i: nat, d: nat, key: Bytes)
    requires i < |ks| && d <= |ks|
  {
    forall e :: 0 <= e < d ==> ks[Pos(i, e, |ks|)].Some? && ks[Pos(i, e, |ks|)].value != key
  }

  /** Probing for the key in slot j gets there: no slot before it is empty. */
  ghost predicate Reaches(hash: Hash, ks: Keys, j: nat)
    requires j < |ks| && ks[j].Some?
  {
    var i := Start(hash(ks[j].value), |ks|);
    forall e :: 0 <= e < Distance(i, j, |ks|) ==> ks[Pos(i, e, |ks|)].Some?
  }

  ghost predicate Valid(hash: Hash, ks: Keys) {
    && (forall j :: 0 <= j < |ks| && ks[j].Some? ==> Reaches(hash, ks, j))
    && (forall i, j :: 0 <= i < j < |ks| && ks[i].Some? ==> ks[i] != ks[j])
  }

  ghost predicate HasEmpty(ks: Keys) {
    exists i :: 0 <= i < |ks| && ks[i].None?
  }

  /** The slot probing for key ends at: the one that holds it, or the first empty one. */
  ghost predicate Found(hash: Hash, ks: Keys, key: Bytes, j: nat) {
    && j < |ks|
    && Passed(ks, Start(hash(key), |ks|), Distance(Start(hash(key), |ks|), j, |ks|), key)
    && (ks[j] == None || ks[j] == Some(key))
  }

  lemma {:induction false} DistanceOfPos(i: nat, d: nat, n: nat)
    requires i < n && d < n
    ensures Distance(i, Pos(i, d, n), n) == d
  {
  }

  /** A key is not in the table if probing for it ends at an empty slot. */
  lemma {:induction false} EmptyMeansAbsent(hash: Hash, ks: Keys, key: Bytes, j: nat)
    requires Valid(hash, ks) && Found(hash, ks, key, j) && ks[j].None?
    ensures Some(key) !in ks
  {
    var i := Start(hash(key), |ks|);
    forall k | 0 <= k < |ks| ensures ks[k] != Some(key) {
      var d := Distance(i, k, |ks|);
      assert Pos(i, d, |ks|) == k && Pos(i, Distance(i, j, |ks|), |ks|) == j;
      assert ks[k].Some? ==> Reaches(hash, ks, k);
    }
  }

  /** Not all slots can have been passed. */
  lemma {:induction false} EmptyStops(ks: Keys, i: nat, d: nat, key: Bytes)
    requires HasEmpty(ks) && i < |ks| && d <= |ks| && Passed(ks, i, d, key)
    ensures d < |ks|
  {
    var j :| 0 <= j < |ks| && ks[j].None?;
    assert Pos(i, Distance(i, j, |ks|), |ks|) == j;
  }

  /** The probe loop. It ends because a slot is empty. */
  method Probe(ghost hash: Hash, ks: Keys, h: nat, key: Bytes) returns (j: nat)
    requires Valid(hash, ks) && HasEmpty(ks) && h == hash(key)
    ensures Found(hash, ks, key, j)
  {
    j := Start(h, |ks|);
    ghost var i := j;
    ghost var d := 0;
    while ks[j] != None && ks[j] != Some(key)
      invariant d < |ks| && j == Pos(i, d, |ks|) && Passed(ks, i, d, key)
      decreases |ks| - d
    {
      d := d + 1;
      EmptyStops(ks, i, d, key);
      j := if j + 1 == |ks| then 0 else j + 1;
    }
    DistanceOfPos(i, d, |ks|);
  }

  /** The probe loop of rehash, which only looks for an empty slot: the key is not in the table. */
  method ProbeEmpty(ghost hash: Hash, ks: Keys, h: nat, ghost key: Bytes) returns (j: nat)
    requires HasEmpty(ks) && h == hash(key) && Some(key) !in ks
    ensures Found(hash, ks, key, j) && ks[j].None?
  {
    j := Start(h, |ks|);
    ghost var i := j;
    ghost var d := 0;
    while ks[j] != None
      invariant d < |ks| && j == Pos(i, d, |ks|) && Passed(ks, i, d, key)
      decreases |ks| - d
    {
      assert ks[j] in ks;
      d := d + 1;
      EmptyStops(ks, i, d, key);
      j := if j + 1 == |ks| then 0 else j + 1;
    }
    DistanceOfPos(i, d, |ks|);
  }

  /** Storing a key where probing for it ended keeps the table valid. */
  lemma {:induction false} StoreValid(hash: Hash, ks: Keys, key: Bytes, j: nat)
    requires Valid(hash, ks) && Found(hash, ks, key, j)
    ensures Valid(hash, ks[j := Some(key)])
  {
    var more := ks[j := Some(key)];
    if ks[j].None? {
      EmptyMeansAbsent(hash, ks, key, j);
    }
    forall k | 0 <= k < |more| && more[k].Some? ensures Reaches(hash, more, k) {
      assert k != j ==> Reaches(hash, ks, k);
    }
    forall a, b | 0 <= a < b < |more| && more[a].Some? ensures more[a] != more[b] {
      assert ks[a] in ks && ks[b] in ks;
    }
  }

  // ------------------------------------------------------------- load factor

  /** The number of slots in use. */
  function Used(ks: Keys): (n: nat)
    ensures n <= |ks|
  {
    if ks == [] then 0 else Used(ks[..|ks| - 1]) + if ks[|ks| - 1].Some? then 1 else 0
  }

  lemma {:induction false} LoadLeavesEmpty(ks: Keys)
    requires Used(ks) < |ks|
    ensures HasEmpty(ks)
  {
    var last := |ks| - 1;
    if ks[last].Some? {
      LoadLeavesEmpty(ks[..last]);
      var i :| 0 <= i < last && ks[..last][i].None?;
      assert ks[i].None?;
    }
  }

  lemma {:induction false} StoreUsed(ks: Keys, j: nat, key: Bytes)
    requires j < |ks|
    ensures Used(ks[j := Some(key)]) == Used(ks) + if ks[j].None? then 1 else 0
    decreases |ks|
  {
    var last := |ks| - 1;
    if j == last {
      assert ks[j := Some(key)][..last] == ks[..last];
    } else {
      StoreUsed(ks[..last], j, key);
      assert ks[j := Some(key)][..last] == ks[..last][j := Some(key)];
    }
  }

  function EmptyKeys(n: nat): (ks: Keys)
    ensures |ks| == n && forall i :: 0 <= i < n ==> ks[i] == None
  {
    seq(n, i => None)
  }

  lemma {:induction false} EmptyUsed(n: nat)
    ensures Used(EmptyKeys(n)) == 0
  {
    if n > 0 {
      EmptyUsed(n - 1);
      assert EmptyKeys(n)[..n - 1] == EmptyKeys(n - 1);
    }
  }

  // ------------------------------------------------- readers of older tables

  /** Slots are only ever filled: what a reader saw stays where it is. */
  ghost predicate Grows(ks: Keys, later: Keys) {
    |ks| == |later| && forall i :: 0 <= i < |ks| && ks[i].Some? ==> later[i] == ks[i]
  }

  /**
   * A reader that probes slot by slot while the writer keeps storing keys, so
   * that every slot is read from a later state of the table, finds every key
   * that was stored when it started: at each distance below that of the key,
   * the slot it reads holds another key.
   */
  lemma {:induction false} ReaderFindsKey(hash: Hash, ks: Keys, key: Bytes, j: nat, seen: nat -> Keys, d: nat)
    requires Valid(hash, ks) && j < |ks| && ks[j] == Some(key)
    requires forall e :: Grows(ks, seen(e)) && Valid(hash, seen(e))
    requires d <= Distance(Start(hash(key), |ks|), j, |ks|)
    ensures |seen(d)| == |ks|
    ensures var i := Start(hash(key), |ks|);
            var slot := seen(d)[Pos(i, d, |ks|)];
            if d == Distance(i, j, |ks|) then slot == Some(key) else slot.Some? && slot != Some(key)
  {
    var i := Start(hash(key), |ks|);
    var later := seen(d);
    assert Grows(ks, later) && Valid(hash, later) && Reaches(hash, ks, j);
    var p := Pos(i, d, |ks|);
    DistanceOfPos(i, d, |ks|);
    if p != j {
      assert later[j] == Some(key);
      assert ks[p].Some? && later[p] == ks[p] && later[p] != later[j];
    }
  }

  /**
   * Whether the key is there or not, such a reader ends within the number of
   * slots: a slot that is empty in the last table it reads was empty before,
   * and the reader stops there if not earlier.
   */
  lemma {:induction false} ReaderEnds(hash: Hash, key: Bytes, n: nat, seen: nat -> Keys) returns (d: nat)
    requires n > 0 && forall e :: 0 <= e < n ==> |seen(e)| == n
    requires forall e, f :: 0 <= e <= f < n ==> Grows(seen(e), seen(f))
    requires HasEmpty(seen(n - 1))
    ensures d < n && var slot := seen(d)[Pos(Start(hash(key), n), d, n)]; slot == None || slot == Some(key)
  {
    var last, i := seen(n - 1), Start(hash(key), n);
    var j :| 0 <= j < n && last[j].None?;
    d := Distance(i, j, n);
    assert Grows(seen(d), last);
  }

  /** A key that is in none of the tables it reads is never found: it stops at an empty slot. */
  lemma {:induction false} ReaderMissesKey(hash: Hash, key: Bytes, n: nat, seen: nat -> Keys) returns (d: nat)
    requires n > 0 && forall e :: 0 <= e < n ==> |seen(e)| == n && Some(key) !in seen(e)
    requires forall e, f :: 0 <= e <= f < n ==> Grows(seen(e), seen(f))
    requires HasEmpty(seen(n - 1))
    ensures d < n && seen(d)[Pos(Start(hash(key), n), d, n)] == None
    ensures forall e :: 0 <= e < n ==> seen(e)[Pos(Start(hash(key), n), e, n)] != Some(key)
  {
    d := ReaderEnds(hash, key, n, seen);
    forall e | 0 <= e < n ensures seen(e)[Pos(Start(hash(key), n), e, n)] != Some(key) {
      assert seen(e)[Pos(Start(hash(key), n), e, n)] in seen(e);
    }
  }
}
