/** A world that satisfies the laws all theorems rely on, so they are not empty. */
module SampleWorlds {
  import opened ByteStrings
  import opened Numbers
  import Rules

  /** Numbers are single bytes. */
  function ParseByte(s: Bytes): Option<Num> {
    if |s| == 1 then Some(Finite(s[0] as real)) else None
  }

  function NumText(x: Num): Bytes {
    match x
    case NegInf => [0, 0]
    case PosInf => [2, 0]
    case Finite(r) => [1, if 0.0 <= r < 256.0 then r.Floor else 0]
  }

  function TextNum(a: Byte, b: Byte): Num {
    if a == 0 then NegInf else if a == 2 then PosInf else Finite(b as real)
  }

  function IntervalText(iv: Interval): Bytes {
    NumText(iv.lo) + NumText(iv.hi) + [if iv.loOpen then 1 else 0, if iv.hiOpen then 1 else 0]
  }

  function TextInterval(s: Bytes): Interval {
    if |s| != 6 then Interval(NegInf, PosInf, false, false)
    else Interval(TextNum(s[0], s[1]), TextNum(s[2], s[3]), s[4] == 1, s[5] == 1)
  }

  /** Addresses are written bit by bit. */
  function Bits(s: Bytes): seq<bool> {
    seq(|s|, i requires 0 <= i < |s| => s[i] == 1)
  }

  function BitText(a: seq<bool>): Bytes {
    seq(|a|, i requires 0 <= i < |a| => if a[i] then 1 else 0)
  }

  function ParseAddress(s: Bytes): Option<seq<bool>> {
    if |s| == 32 || |s| == 128 then Some(Bits(s)) else None
  }

  /** The length of a prefix comes before its address. */
  function ParsePrefix(s: Bytes): Option<Rules.IPPrefix> {
    if (|s| == 33 || |s| == 129) && s[0] < |s| && forall i :: s[0] < i < |s| ==> s[i] != 1
    then Some(Rules.IPPrefix(Bits(s[1..]), s[0])) else None
  }

  function PrefixText(p: Rules.IPPrefix): Bytes {
    [if p.bits < 256 then p.bits else 0] + BitText(p.addr)
  }

  const SAMPLE := Rules.World(s => s, ParseByte, IntervalText, TextInterval, ParsePrefix, PrefixText, ParseAddress)

  lemma {:induction false} NumberText(x: Num)
    requires SAMPLE.IsNumber(x)
    ensures TextNum(NumText(x)[0], NumText(x)[1]) == x
  {
    if x.Finite? {
      var s :| ParseByte(s) == Some(x);
      assert x.r == s[0] as real;
    }
  }

  lemma {:induction false} BitsText(a: seq<bool>)
    ensures |BitText(a)| == |a| && Bits(BitText(a)) == a
  {
  }

  /** The prefixes of the sample are the first bits of addresses of 32 or 128 bits. */
  lemma {:induction false} PrefixOfText(a: seq<bool>, n: nat)
    requires (|a| == 32 || |a| == 128) && n <= |a| && forall i :: n <= i < |a| ==> !a[i]
    ensures ParsePrefix(PrefixText(Rules.IPPrefix(a, n))) == Some(Rules.IPPrefix(a, n))
  {
    var s := PrefixText(Rules.IPPrefix(a, n));
    BitsText(a);
    assert s[1..] == BitText(a);
    assert forall i :: 0 < i < |s| ==> s[i] == BitText(a)[i - 1];
  }

  lemma {:induction false} PrefixBack(s: Bytes)
    requires ParsePrefix(s).Some?
    ensures var p := ParsePrefix(s).value; p.Masked() && ParsePrefix(PrefixText(p)) == Some(p)
  {
    var p := ParsePrefix(s).value;
    assert forall i :: 0 <= i < |p.addr| ==> p.addr[i] == (s[i + 1] == 1);
    PrefixOfText(p.addr, p.bits);
  }

  /** The laws can be satisfied, with numbers to match, and with all addresses and prefixes. */
  lemma {:induction false} SampleIsLawful(a: seq<bool>, n: nat)
    requires (|a| == 32 || |a| == 128) && n <= |a| && forall i :: n <= i < |a| ==> !a[i]
    ensures SAMPLE.Lawful()
    ensures SAMPLE.parseIP(BitText(a)) == Some(a)
    ensures SAMPLE.parsePrefix(PrefixText(Rules.IPPrefix(a, n))) == Some(Rules.IPPrefix(a, n))
  {
    forall iv | SAMPLE.IsInterval(iv) ensures TextInterval(IntervalText(iv)) == iv {
      NumberText(iv.lo);
      NumberText(iv.hi);
    }
    forall s | ParsePrefix(s).Some?
      ensures ParsePrefix(s).value.Masked() && ParsePrefix(PrefixText(ParsePrefix(s).value)) == ParsePrefix(s)
    {
      PrefixBack(s);
    }
    BitsText(a);
    PrefixOfText(a, n);
  }
}
