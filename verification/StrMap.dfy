/** The lock-free hash map with string keys (concurrent.go), for any hash function. */
module StrMap {
  import opened ByteStrings
  import opened Probing

  datatype Entry<V> = Entry(key: Bytes, val: V)

  type Slots<V> = seq<Option<Entry<V>>>

  function KeyIn<V>(e: Option<Entry<V>>): Option<Bytes> {
    if e.Some? then Some(e.value.key) else None
  }

  function KeysOf<V>(slots: Slots<V>): (ks: Keys)
    ensures |ks| == |slots| && forall i :: 0 <= i < |ks| ==> ks[i] == KeyIn(slots[i])
  {
    seq(|slots|, i requires 0 <= i < |slots| => KeyIn(slots[i]))
  }

  /** The slots hold exactly the entries of m. */
  ghost predicate Holds<V(!new)>(slots: Slots<V>, m: map<Bytes, V>) {
    forall k, v :: (k in m && m[k] == v) <==> Some(Entry(k, v)) in slots
  }

  lemma {:induction false} HoldsKey<V(!new)>(slots: Slots<V>, m: map<Bytes, V>, k: Bytes)
    requires Holds(slots, m)
    ensures k in m <==> Some(k) in KeysOf(slots)
  {
    if k in m {
      assert Some(Entry(k, m[k])) in slots;
      var i :| 0 <= i < |slots| && slots[i] == Some(Entry(k, m[k]));
      assert KeysOf(slots)[i] == Some(k);
    }
    if Some(k) in KeysOf(slots) {
      var i :| 0 <= i < |slots| && KeysOf(slots)[i] == Some(k);
      assert slots[i] == Some(Entry(k, slots[i].value.val));
      assert slots[i] in slots;
    }
  }

  lemma {:induction false} StoreHolds<V(!new)>(hash: Hash, slots: Slots<V>, m: map<Bytes, V>, e: Entry<V>, j: nat)
    requires Holds(slots, m) && Valid(hash, KeysOf(slots)) && Found(hash, KeysOf(slots), e.key, j)
    ensures Holds(slots[j := Some(e)], m[e.key := e.val])
    ensures KeysOf(slots[j := Some(e)]) == KeysOf(slots)[j := Some(e.key)]
    ensures Valid(hash, KeysOf(slots[j := Some(e)]))
  {
    var more := slots[j := Some(e)];
    StoreValid(hash, KeysOf(slots), e.key, j);
    assert KeysOf(more) == KeysOf(slots)[j := Some(e.key)];
    forall k, v ensures (k in m[e.key := e.val] && m[e.key := e.val][k] == v) <==> Some(Entry(k, v)) in more {
      StoredEntry(hash, slots, e, j, k, v);
    }
  }

  /** Only the entry of the stored key changes. */
  lemma {:induction false} StoredEntry<V>(hash: Hash, slots: Slots<V>, e: Entry<V>, j: nat, k: Bytes, v: V)
    requires Valid(hash, KeysOf(slots)) && Found(hash, KeysOf(slots), e.key, j)
    ensures Some(Entry(k, v)) in slots[j := Some(e)] <==>
            if k == e.key then v == e.val else Some(Entry(k, v)) in slots
  {
    var more, ks := slots[j := Some(e)], KeysOf(slots);
    if ks[j].None? {
      EmptyMeansAbsent(hash, ks, e.key, j);
    }
    forall i | 0 <= i < |slots| && i != j ensures KeyIn(slots[i]) != Some(e.key) && more[i] == slots[i] {
      assert ks[i] in ks;
    }
    assert more[j] == Some(e) && more[j] in more;
    if k != e.key && Some(Entry(k, v)) in slots {
      var i :| 0 <= i < |slots| && slots[i] == Some(Entry(k, v));
      assert KeyIn(slots[j]) == None || KeyIn(slots[j]) == Some(e.key);
      assert more[i] in more;
    }
  }

  /** insert: stores e where probing for its key ends. */
  method Insert<V>(ghost hash: Hash, h: nat, t: array<Option<Entry<V>>>, e: Entry<V>)
    returns (isNew: bool, ghost j: nat)
    requires Valid(hash, KeysOf(t[..])) && HasEmpty(KeysOf(t[..])) && h == hash(e.key)
    modifies t
    ensures Found(hash, KeysOf(old(t[..])), e.key, j) && t[..] == old(t[..])[j := Some(e)]
    ensures isNew <==> KeysOf(old(t[..]))[j].None?
  {
    var i := Probe(hash, KeysOf(t[..]), h, e.key);
    isNew, j := t[i].None?, i;
    t[i] := Some(e);
  }

  /** Stores slot i of a smaller table in r. */
  method CopySlot<V(!new)>(hash: Hash, ghost slots: Slots<V>, ghost i: nat, slot: Option<Entry<V>>,
                           r: array<Option<Entry<V>>>,
                           ghost m: map<Bytes, V>, count: nat) returns (count': nat, ghost m': map<Bytes, V>)
    requires Copied(hash, slots, i, r[..], m) && i < |slots| < r.Length && slots[i] == slot
    requires count == Used(KeysOf(r[..])) == Used(KeysOf(slots[..i]))
    modifies r
    ensures Copied(hash, slots, i + 1, r[..], m')
    ensures count' == Used(KeysOf(r[..])) == Used(KeysOf(slots[..i + 1]))
  {
    UsedSnoc(slots, i);
    if slot.None? {
      SkipOne(hash, slots, i, r[..], m);
      return count, m;
    }
    ghost var before := r[..];
    UsedPrefix(slots, i);
    LoadLeavesEmpty(KeysOf(before));
    var isNew, j := Insert(hash, hash(slot.value.key), r, slot.value);
    CopyOne(hash, slots, i, before, m, j);
    StoreUsed(KeysOf(before), j, slot.value.key);
    return count + 1, m[slot.value.key := slot.value.val];
  }

  lemma {:induction false} SkipOne<V(!new)>(hash: Hash, slots: Slots<V>, i: nat, r: Slots<V>, m: map<Bytes, V>)
    requires Copied(hash, slots, i, r, m) && i < |slots| && slots[i].None?
    ensures Copied(hash, slots, i + 1, r, m)
  {
    assert slots[..i + 1] == slots[..i] + [None];
    forall k, v ensures Some(Entry(k, v)) in slots[..i + 1] <==> Some(Entry(k, v)) in slots[..i] {
    }
  }

  class StrMap<V(!new)> {
    const hash: Hash
    var t: array?<Option<Entry<V>>>
    var used: nat
    ghost var contents: map<Bytes, V>

    ghost predicate Good()
      reads this, t
    {
      if t == null then used == 0 && contents == map[]
      else
        var ks := KeysOf(t[..]);
        && t.Length >= 8 && Valid(hash, ks) && used == Used(ks) && 4 * used <= 3 * t.Length
        && Holds(t[..], contents)
    }

    constructor (hash: Hash)
      ensures Good() && contents == map[] && this.hash == hash
    {
      this.hash := hash;
      t, used, contents := null, 0, map[];
    }

    /** get and lookup: the load factor leaves an empty slot, so probing ends. */
    method Get(key: Bytes) returns (v: Option<V>)
      requires Good()
      ensures v == if key in contents then Some(contents[key]) else None
    {
      if t == null {
        return None;
      }
      ghost var slots := t[..];
      LoadLeavesEmpty(KeysOf(slots));
      var j := Probe(hash, KeysOf(t[..]), hash(key), key);
      HoldsKey(slots, contents, key);
      if t[j].None? {
        EmptyMeansAbsent(hash, KeysOf(slots), key, j);
        return None;
      }
      assert slots[j] in slots && slots[j] == Some(Entry(key, slots[j].value.val));
      return Some(t[j].value.val);
    }

    /** put: a table a reader holds only gains keys, in place or not at all. */
    method Put(key: Bytes, val: V)
      requires Good()
      modifies this, t
      ensures Good() && contents == old(contents)[key := val]
      ensures t != null && (t == old(t) || fresh(t))
      ensures old(t) != null ==> Grows(KeysOf(old(t[..])), KeysOf(old(t)[..]))
    {
      if t == null || (used + 1) * 4 > t.Length * 3 {
        Grow();
      }
      Store(key, val);
    }

    /** Stores the entry where there is room for one more key. */
    method Store(key: Bytes, val: V)
      requires Good() && t != null && 4 * (used + 1) <= 3 * t.Length
      modifies this`used, this`contents, t
      ensures Good() && contents == old(contents)[key := val]
      ensures Grows(KeysOf(old(t[..])), KeysOf(t[..]))
    {
      ghost var slots := t[..];
      LoadLeavesEmpty(KeysOf(slots));
      var isNew, j := Insert(hash, hash(key), t, Entry(key, val));
      StoreHolds(hash, slots, contents, Entry(key, val), j);
      StoreUsed(KeysOf(slots), j, key);
      if isNew {
        used := used + 1;
      }
      contents := contents[key := val];
    }

    /** grow: publishes a table twice the size with all entries. */
    method Grow()
      requires Good() && (t == null || (used + 1) * 4 > t.Length * 3)
      modifies this`t, this`used
      ensures Good() && fresh(t) && contents == old(contents)
      ensures 4 * (used + 1) <= 3 * t.Length
    {
      var n := if t == null then 8 else t.Length * 2;
      var fresh_, count := CopyTo(n);
      t, used := fresh_, count;
    }

    method CopyTo(n: nat) returns (r: array<Option<Entry<V>>>, count: nat)
      requires Good() && n == (if t == null then 8 else t.Length * 2)
      ensures fresh(r) && r.Length == n && Valid(hash, KeysOf(r[..])) && Holds(r[..], contents)
      ensures count == Used(KeysOf(r[..])) == used
    {
      r := new Option<Entry<V>>[n](i => None);
      count := 0;
      assert KeysOf(r[..]) == EmptyKeys(n);
      EmptyUsed(n);
      if t == null {
        return;
      }
      ghost var m: map<Bytes, V> := map[];
      for i := 0 to t.Length
        invariant fresh(r) && r.Length == n && Copied(hash, t[..], i, r[..], m)
        invariant count == Used(KeysOf(r[..])) == Used(KeysOf(t[..i]))
      {
        count, m := CopySlot(hash, t[..], i, t[i], r, m, count);
      }
      CopiedAll(hash, t[..], r[..], m, contents);
      assert t[..t.Length] == t[..];
    }
  }

  /** r holds the entries of the first i slots. */
  ghost predicate Copied<V(!new)>(hash: Hash, slots: Slots<V>, i: nat, r: Slots<V>, m: map<Bytes, V>) {
    && i <= |slots| && Valid(hash, KeysOf(slots)) && Valid(hash, KeysOf(r)) && Holds(r, m)
    && forall k, v :: (k in m && m[k] == v) <==> Some(Entry(k, v)) in slots[..i]
  }

  lemma {:induction false} CopyOne<V(!new)>(hash: Hash, slots: Slots<V>, i: nat, r: Slots<V>, m: map<Bytes, V>, j: nat)
    requires Copied(hash, slots, i, r, m) && i < |slots| && slots[i].Some?
    requires Found(hash, KeysOf(r), slots[i].value.key, j)
    ensures var e := slots[i].value;
            && KeysOf(r)[j].None? && KeysOf(r[j := Some(e)]) == KeysOf(r)[j := Some(e.key)]
            && Copied(hash, slots, i + 1, r[j := Some(e)], m[e.key := e.val])
  {
    var e := slots[i].value;
    assert e.key in m ==> Some(Entry(e.key, m[e.key])) in slots[..i];
    StoreHolds(hash, r, m, e, j);
    KeyNotBefore(hash, slots, i);
    HoldsKey(r, m, e.key);
    assert KeysOf(r)[j] in KeysOf(r);
    assert slots[..i + 1] == slots[..i] + [slots[i]];
    forall k, v ensures Some(Entry(k, v)) in slots[..i + 1] <==> Some(Entry(k, v)) in slots[..i] || Entry(k, v) == e {
    }
  }

  lemma {:induction false} KeyNotBefore<V>(hash: Hash, slots: Slots<V>, i: nat)
    requires Valid(hash, KeysOf(slots)) && i < |slots| && slots[i].Some?
    ensures forall v :: Some(Entry(slots[i].value.key, v)) !in slots[..i]
  {
    forall a | 0 <= a < i ensures KeyIn(slots[a]) != Some(slots[i].value.key) {
      assert KeysOf(slots)[i].Some?;
    }
  }

  lemma {:induction false} UsedSnoc<V>(slots: Slots<V>, i: nat)
    requires i < |slots|
    ensures Used(KeysOf(slots[..i + 1])) == Used(KeysOf(slots[..i])) + if slots[i].Some? then 1 else 0
  {
    assert KeysOf(slots[..i + 1])[..i] == KeysOf(slots[..i]);
  }

  lemma {:induction false} UsedPrefix<V>(slots: Slots<V>, i: nat)
    requires i <= |slots|
    ensures Used(KeysOf(slots[..i])) <= i
  {
  }

  lemma {:induction false} CopiedAll<V(!new)>(hash: Hash, slots: Slots<V>, r: Slots<V>, m: map<Bytes, V>,
                                              contents: map<Bytes, V>)
    requires Copied(hash, slots, |slots|, r, m) && Holds(slots, contents)
    ensures Holds(r, contents)
  {
    assert slots[..|slots|] == slots;
    assert m == contents by {
      forall k ensures k in m <==> k in contents {
        if k in m {
          assert Some(Entry(k, m[k])) in slots;
        }
        if k in contents {
          assert Some(Entry(k, contents[k])) in slots;
        }
      }
      forall k | k in m ensures m[k] == contents[k] {
        assert Some(Entry(k, m[k])) in slots;
      }
    }
  }
}
