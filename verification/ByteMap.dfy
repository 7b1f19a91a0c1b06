/** The map from bytes to values that finds its entries by rank (byteMap in concurrent.go). */
module ByteMap {
  import opened ByteStrings

  type Word = seq<bool>

  /**
   * A bit for every key, the number of keys in the words before each word, and the values in the
   * order of their keys.
   */
  datatype Table<V> = Table(words: seq<Word>, base: seq<nat>, vals: seq<V>)

  /** bits.OnesCount64 */
  function Ones(bits: seq<bool>): (n: nat)
    ensures n <= |bits|
  {
    if bits == [] then 0 else Ones(bits[..|bits| - 1]) + if bits[|bits| - 1] then 1 else 0
  }

  predicate WellSized<V>(t: Table<V>) {
    |t.words| == 4 && |t.base| == 4 && forall i :: 0 <= i < 4 ==> |t.words[i]| == 64
  }

  function Present<V>(t: Table<V>, c: Byte): bool
    requires WellSized(t)
  {
    t.words[c / 64][c % 64]
  }

  /** rank: the index of the value of c, if it is present. */
  function Rank<V>(t: Table<V>, c: Byte): nat
    requires WellSized(t)
  {
    t.base[c / 64] + Ones(t.words[c / 64][..c % 64])
  }

  /** All bits in one sequence. */
  function Bits<V>(t: Table<V>): (bits: seq<bool>)
    requires WellSized(t)
    ensures |bits| == 256
  {
    t.words[0] + t.words[1] + t.words[2] + t.words[3]
  }

  predicate GoodBase(words: seq<Word>, base: seq<nat>)
    requires |words| == 4 && |base| == 4
  {
    base[0] == 0 && forall w :: 0 < w < 4 ==> base[w] == base[w - 1] + Ones(words[w - 1])
  }

  predicate Valid<V>(t: Table<V>) {
    WellSized(t) && GoodBase(t.words, t.base) && |t.vals| == Ones(Bits(t))
  }

  lemma {:induction false} OnesConcat(a: seq<bool>, b: seq<bool>)
    ensures Ones(a + b) == Ones(a) + Ones(b)
  {
    if b == [] {
      assert a + b == a;
    } else {
      OnesConcat(a, b[..|b| - 1]);
      assert (a + b)[..|a + b| - 1] == a + b[..|b| - 1];
    }
  }

  /** The words before word w. */
  function Before(words: seq<Word>, w: nat): seq<bool>
    requires w <= |words|
  {
    if w == 0 then [] else Before(words, w - 1) + words[w - 1]
  }

  lemma {:induction false} BaseIsCount(words: seq<Word>, base: seq<nat>, w: nat)
    requires |words| == 4 && |base| == 4 && GoodBase(words, base) && w < 4
    ensures base[w] == Ones(Before(words, w))
  {
    if w > 0 {
      BaseIsCount(words, base, w - 1);
      OnesConcat(Before(words, w - 1), words[w - 1]);
    }
  }

  lemma {:induction false} BitsUpTo<V>(t: Table<V>, c: Byte)
    requires WellSized(t)
    ensures Bits(t)[..c] == Before(t.words, c / 64) + t.words[c / 64][..c % 64]
    ensures Bits(t)[c] == Present(t, c)
  {
    var w, i := c / 64, c % 64;
    assert c == 64 * w + i;
    assert Before(t.words, 1) == t.words[0];
    assert Before(t.words, 2) == t.words[0] + t.words[1];
    assert Before(t.words, 3) == t.words[0] + t.words[1] + t.words[2];
  }

  /** The rank of c is the number of keys below c. */
  lemma {:induction false} RankCounts<V>(t: Table<V>, c: Byte)
    requires WellSized(t) && GoodBase(t.words, t.base)
    ensures Rank(t, c) == Ones(Bits(t)[..c])
  {
    BaseIsCount(t.words, t.base, c / 64);
    BitsUpTo(t, c);
    OnesConcat(Before(t.words, c / 64), t.words[c / 64][..c % 64]);
  }

  lemma {:induction false} OnesSplit(bits: seq<bool>, c: nat)
    requires c < |bits|
    ensures Ones(bits) == Ones(bits[..c]) + (if bits[c] then 1 else 0) + Ones(bits[c + 1..])
  {
    assert bits == bits[..c] + [bits[c]] + bits[c + 1..];
    OnesConcat(bits[..c] + [bits[c]], bits[c + 1..]);
    OnesConcat(bits[..c], [bits[c]]);
    assert [bits[c]][..0] == [];
  }

  lemma {:induction false} RankInVals<V>(t: Table<V>, c: Byte)
    requires Valid(t)
    ensures Rank(t, c) <= |t.vals| && (Present(t, c) ==> Rank(t, c) < |t.vals|)
  {
    RankCounts(t, c);
    BitsUpTo(t, c);
    OnesSplit(Bits(t), c);
  }

  /** get */
  function Get<V>(t: Table<V>, c: Byte): Option<V>
    requires Valid(t)
  {
    RankInVals(t, c);
    if Present(t, c) then Some(t.vals[Rank(t, c)]) else None
  }

  function EmptyWord(): (w: Word)
    ensures |w| == 64 && forall i :: 0 <= i < 64 ==> !w[i]
  {
    seq(64, i => false)
  }

  lemma {:induction false} OnesNone(bits: seq<bool>)
    requires true !in bits
    ensures Ones(bits) == 0
  {
    if bits != [] {
      OnesNone(bits[..|bits| - 1]);
    }
  }

  /** The map without keys. */
  function Empty<V>(): Table<V> {
    Table([EmptyWord(), EmptyWord(), EmptyWord(), EmptyWord()], [0, 0, 0, 0], [])
  }

  lemma {:induction false} EmptyHasNothing<V>(c: Byte)
    ensures Valid(Empty<V>()) && Get(Empty<V>(), c) == None
  {
    OnesNone(EmptyWord());
    OnesNone(Bits(Empty<V>()));
  }

  /** Setting the bit of c moves the ranks of larger keys by one. */
  lemma {:induction false} SetBit(bits: seq<bool>, c: nat, d: nat)
    requires c < |bits| && !bits[c] && d <= |bits|
    ensures Ones(bits[c := true][..d]) == Ones(bits[..d]) + if c < d then 1 else 0
  {
    if c < d {
      OnesSplit(bits[..d], c);
      OnesSplit(bits[c := true][..d], c);
      assert bits[..d][..c] == bits[..c] == bits[c := true][..d][..c];
      assert bits[..d][c + 1..] == bits[c := true][..d][c + 1..];
    } else {
      assert bits[c := true][..d] == bits[..d];
    }
  }

  /** The loop of put that recomputes the counts. They fit a byte. */
  method CountBases(words: seq<Word>) returns (base: seq<nat>)
    requires |words| == 4 && forall i :: 0 <= i < 4 ==> |words[i]| == 64
    ensures |base| == 4 && GoodBase(words, base) && forall w :: 0 <= w < 4 ==> base[w] < 256
  {
    base := [0, 0, 0, 0];
    for w := 1 to 4
      invariant |base| == 4 && base[0] == 0
      invariant forall v :: 0 < v < w ==> base[v] == base[v - 1] + Ones(words[v - 1])
      invariant forall v :: 0 <= v < 4 ==> base[v] <= 64 * v
    {
      base := base[w := base[w - 1] + Ones(words[w - 1])];
    }
  }

  function Inserted<V>(vals: seq<V>, i: nat, v: V): seq<V>
    requires i <= |vals|
  {
    vals[..i] + [v] + vals[i..]
  }

  /** put inserts or replaces the value of c, and changes no other. */
  method Put<V>(t: Table<V>, c: Byte, v: V) returns (n: Table<V>)
    requires Valid(t)
    ensures Valid(n) && Get(n, c) == Some(v)
    ensures forall d: Byte :: d != c ==> Get(n, d) == Get(t, d)
  {
    RankInVals(t, c);
    var i := Rank(t, c);
    if Present(t, c) {
      n := t.(vals := t.vals[i := v]);
      forall d: Byte ensures Get(n, d) == if d == c then Some(v) else Get(t, d) {
        ReplaceKeeps(t, n, c, v, d);
      }
      return;
    }
    var words := t.words[c / 64 := t.words[c / 64][c % 64 := true]];
    var base := CountBases(words);
    n := Table(words, base, Inserted(t.vals, i, v));
    NewBits(t, words, c);
    BitsUpTo(t, c);
    SetBit(Bits(t), c, 256);
    assert Bits(t)[..256] == Bits(t) && Bits(t)[c := true][..256] == Bits(t)[c := true];
    forall d: Byte ensures Get(n, d) == if d == c then Some(v) else Get(t, d) {
      InsertKeeps(t, n, c, v, d);
    }
  }

  lemma {:induction false} ReplaceKeeps<V>(t: Table<V>, n: Table<V>, c: Byte, v: V, d: Byte)
    requires Valid(t) && Present(t, c) && Rank(t, c) < |t.vals| && n == t.(vals := t.vals[Rank(t, c) := v])
    ensures Get(n, d) == if d == c then Some(v) else Get(t, d)
  {
    assert Rank(n, d) == Rank(t, d) && Present(n, d) == Present(t, d);
    RankInVals(t, d);
    if d != c {
      RanksDiffer(t, c, d);
    }
  }

  lemma {:induction false} InsertKeeps<V>(t: Table<V>, n: Table<V>, c: Byte, v: V, d: Byte)
    requires Valid(t) && !Present(t, c) && Valid(n) && Bits(n) == Bits(t)[c := true]
    requires Rank(t, c) <= |t.vals| && n.vals == Inserted(t.vals, Rank(t, c), v)
    ensures Get(n, d) == if d == c then Some(v) else Get(t, d)
  {
    RankAfter(t, n, c, d);
    RanksOrdered(t, c, d);
  }

  lemma {:induction false} NewBits<V>(t: Table<V>, words: seq<Word>, c: Byte)
    requires WellSized(t) && words == t.words[c / 64 := t.words[c / 64][c % 64 := true]]
    ensures Bits(Table(words, t.base, t.vals)) == Bits(t)[c := true]
  {
    assert c == 64 * (c / 64) + c % 64;
  }

  lemma {:induction false} RankAfter<V>(t: Table<V>, n: Table<V>, c: Byte, d: Byte)
    requires Valid(t) && WellSized(n) && GoodBase(n.words, n.base) && !Present(t, c) && Bits(n) == Bits(t)[c := true]
    ensures Present(n, d) == (d == c || Present(t, d)) && Rank(n, d) == Rank(t, d) + if c < d then 1 else 0
  {
    BitsUpTo(t, d);
    BitsUpTo(n, d);
    BitsUpTo(t, c);
    RankCounts(t, d);
    RankCounts(n, d);
    SetBit(Bits(t), c, d);
  }

  /** Ranks grow with the keys, and strictly after a present key. */
  lemma {:induction false} RanksOrdered<V>(t: Table<V>, c: Byte, d: Byte)
    requires Valid(t)
    ensures d < c && Present(t, d) ==> Rank(t, d) < Rank(t, c)
    ensures c <= d ==> Rank(t, c) <= Rank(t, d)
    ensures Rank(t, d) <= |t.vals| && (Present(t, d) ==> Rank(t, d) < |t.vals|)
  {
    RankInVals(t, d);
    RankCounts(t, c);
    RankCounts(t, d);
    BitsUpTo(t, d);
    if d < c {
      OnesSplit(Bits(t)[..c], d);
      assert Bits(t)[..c][..d] == Bits(t)[..d];
    } else if c < d {
      OnesSplit(Bits(t)[..d], c);
      assert Bits(t)[..d][..c] == Bits(t)[..c];
    }
  }

  lemma {:induction false} RanksDiffer<V>(t: Table<V>, c: Byte, d: Byte)
    requires Valid(t) && c != d && Present(t, c)
    ensures Present(t, d) ==> Rank(t, d) != Rank(t, c)
  {
    RanksOrdered(t, c, d);
    RanksOrdered(t, d, c);
  }
}
