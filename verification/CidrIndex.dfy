/** The index of the CIDR leaves of a group: one lookup per prefix length (cidr.go). */
module CidrIndex {
  import opened ByteStrings
  import opened Rules

  /** The leaves by prefix length and masked address, and the lengths in use, sorted. */
  datatype Index = Index(prefixes: map<(nat, seq<bool>), nat>, v4: seq<nat>, v6: seq<nat>)

  const EMPTY := Index(map[], [], [])

  predicate Is4(addr: seq<bool>) {
    |addr| == 32
  }

  /** The address a with all bits but the first n cleared. */
  function Mask(a: seq<bool>, n: nat): (m: seq<bool>)
    requires n <= |a|
    ensures |m| == |a| && m[..n] == a[..n]
    ensures forall i :: n <= i < |a| ==> !m[i]
  {
    a[..n] + seq(|a| - n, i => false)
  }

  ghost predicate Ascending(lens: seq<nat>) {
    forall i, j :: 0 <= i < j < |lens| ==> lens[i] < lens[j]
  }

  /** slices.BinarySearch and slices.Insert: records a length, keeping the lengths sorted. */
  function AddLength(lens: seq<nat>, n: nat): (r: seq<nat>)
    ensures forall m :: m in r <==> m in lens || m == n
  {
    if lens == [] || n < lens[0] then [n] + lens
    else if n == lens[0] then lens
    else
      assert lens == [lens[0]] + lens[1..];
      [lens[0]] + AddLength(lens[1..], n)
  }

  lemma {:induction false} AddLengthAscending(lens: seq<nat>, n: nat)
    requires Ascending(lens)
    ensures Ascending(AddLength(lens, n))
  {
    if lens != [] && n > lens[0] {
      AddLengthAscending(lens[1..], n);
      var r := AddLength(lens[1..], n);
      forall j | 0 <= j < |r| ensures lens[0] < r[j] {
        assert r[j] in r;
        assert r[j] == n || r[j] in lens[1..];
      }
    }
  }

  ghost predicate Valid(x: Index) {
    forall k :: k in x.prefixes ==>
      && IPPrefix(k.1, k.0).Masked()
      && k.0 in (if Is4(k.1) then x.v4 else x.v6)
  }

  /** add: registers leaf l for the prefix p, whose key is published before its length. */
  function Add(x: Index, p: IPPrefix, l: nat): (r: Index)
    requires p.Masked() && Valid(x)
    ensures Valid(r)
    ensures r.prefixes == x.prefixes[(p.bits, p.addr) := l]
  {
    var prefixes := x.prefixes[(p.bits, p.addr) := l];
    if Is4(p.addr) then Index(prefixes, AddLength(x.v4, p.bits), x.v6)
    else Index(prefixes, x.v4, AddLength(x.v6, p.bits))
  }

  /** A prefix contains an address exactly if masking the address gives the prefix. */
  lemma {:induction false} ContainsIsMask(p: IPPrefix, a: seq<bool>)
    requires p.Masked()
    ensures p.Contains(a) <==> |a| == |p.addr| && Mask(a, p.bits) == p.addr
  {
    if |a| == |p.addr| {
      assert p.addr == p.addr[..p.bits] + p.addr[p.bits..];
    }
  }

  /** The leaf l is registered for a prefix of n bits that contains a. */
  ghost predicate Hit(x: Index, a: seq<bool>, n: nat, l: nat) {
    n <= |a| && (n, Mask(a, n)) in x.prefixes && x.prefixes[(n, Mask(a, n))] == l
  }

  ghost predicate HitAmong(x: Index, lens: seq<nat>, a: seq<bool>, l: nat) {
    exists n: nat :: n in lens && Hit(x, a, n, l)
  }

  lemma {:induction false} HitAppend(x: Index, lens: seq<nat>, n: nat, a: seq<bool>, l: nat)
    ensures HitAmong(x, lens + [n], a, l) <==> HitAmong(x, lens, a, l) || Hit(x, a, n, l)
  {
    assert forall m: nat :: m in lens + [n] <==> m in lens || m == n;
  }

  /** A prefix registered for l contains a. */
  ghost predicate Matches(x: Index, a: seq<bool>, l: nat) {
    exists p: IPPrefix :: Registered(x, p, l) && p.Contains(a)
  }

  ghost predicate Registered(x: Index, p: IPPrefix, l: nat) {
    (p.bits, p.addr) in x.prefixes && x.prefixes[(p.bits, p.addr)] == l
  }

  /** collect: exactly the leaves whose prefixes contain the address a. */
  method Collect(x: Index, a: seq<bool>, before: seq<nat>) returns (hits: seq<nat>)
    requires Valid(x) && |a| in {32, 128}
    ensures forall l: nat :: l in hits <==> l in before || Matches(x, a, l)
  {
    var all := if Is4(a) then x.v4 else x.v6;
    hits := before;
    for i := 0 to |all|
      invariant forall l: nat :: l in hits <==> l in before || HitAmong(x, all[..i], a, l)
    {
      var n := all[i];
      assert all[..i + 1] == all[..i] + [n];
      forall l: nat ensures HitAmong(x, all[..i + 1], a, l) <==> HitAmong(x, all[..i], a, l) || Hit(x, a, n, l) {
        HitAppend(x, all[..i], n, a, l);
      }
      if n <= |a| && (n, Mask(a, n)) in x.prefixes {
        hits := hits + [x.prefixes[(n, Mask(a, n))]];
      }
    }
    assert all[..|all|] == all;
    forall l: nat ensures HitAmong(x, all, a, l) <==> Matches(x, a, l) {
      HitsMatch(x, a, l);
    }
  }

  lemma {:induction false} HitsMatch(x: Index, a: seq<bool>, l: nat)
    requires Valid(x) && |a| in {32, 128}
    ensures HitAmong(x, if Is4(a) then x.v4 else x.v6, a, l) <==> Matches(x, a, l)
  {
    var all := if Is4(a) then x.v4 else x.v6;
    if HitAmong(x, all, a, l) {
      var n: nat :| n in all && Hit(x, a, n, l);
      var p := IPPrefix(Mask(a, n), n);
      assert (n, Mask(a, n)) in x.prefixes;
      ContainsIsMask(p, a);
      assert Registered(x, p, l);
    }
    if Matches(x, a, l) {
      var p: IPPrefix :| Registered(x, p, l) && p.Contains(a);
      var k := (p.bits, p.addr);
      assert k in x.prefixes;
      ContainsIsMask(p, a);
      assert p.bits in all && Hit(x, a, p.bits, l);
    }
  }
}
