/** The text forms of IPv6 addresses, section 2.2 of RFC 4291 (parseIPv6 in cidr.go). */
module IPv6 {
  import opened ByteStrings
  import opened Decimal
  import IPv4

  /** hexValue: the value of a hex digit, or -1. */
  function HexValue(c: Byte): (v: int)
    ensures -1 <= v < 16
  {
    if '0' as int <= c <= '9' as int then c - '0' as int
    else if 'a' as int <= c <= 'f' as int then c - 'a' as int + 10
    else if 'A' as int <= c <= 'F' as int then c - 'A' as int + 10
    else -1
  }

  predicate AllHex(t: Bytes) {
    forall i :: 0 <= i < |t| ==> HexValue(t[i]) >= 0
  }

  /** One to four hex digits. */
  predicate HexText(t: Bytes) {
    1 <= |t| <= 4 && AllHex(t)
  }

  function Pow16(n: nat): (p: nat)
    ensures p > 0
  {
    if n == 0 then 1 else 16 * Pow16(n - 1)
  }

  function HexNumber(t: Bytes): (v: nat)
    requires AllHex(t)
    ensures v < Pow16(|t|)
  {
    if t == [] then 0 else 16 * HexNumber(t[..|t| - 1]) + HexValue(t[|t| - 1])
  }

  lemma {:induction false} GroupBound(t: Bytes)
    requires HexText(t)
    ensures HexNumber(t) < 65536
  {
    assert Pow16(1) == 16 && Pow16(2) == 256 && Pow16(3) == 4096 && Pow16(4) == 65536;
  }

  // ------------------------------------------------------------------- forms

  /** A group of hex digits, or an IPv4 address, which may only come last. */
  datatype Part = Group(t: Bytes) | Dotted(octets: seq<Bytes>)

  predicate GoodPart(p: Part) {
    match p
    case Group(t) => HexText(t)
    case Dotted(octets) => IPv4.Octets(octets)
  }

  predicate AllGood(ps: seq<Part>) {
    forall i :: 0 <= i < |ps| ==> GoodPart(ps[i])
  }

  predicate GoodParts(ps: seq<Part>, last: bool) {
    AllGood(ps) && forall i :: 0 <= i < |ps| && ps[i].Dotted? ==> last && i == |ps| - 1
  }

  function PartText(p: Part): Bytes {
    match p
    case Group(t) => t
    case Dotted(octets) => IPv4.Join(46, octets)
  }

  function TwoBytes(group: nat): (b: seq<Byte>)
    requires group < 65536
    ensures |b| == 2
  {
    [group / 256, group % 256]
  }

  function Size(p: Part): nat {
    if p.Group? then 2 else 4
  }

  /** The number of bytes of the parts. */
  function ByteCount(ps: seq<Part>): nat {
    if ps == [] then 0 else ByteCount(ps[..|ps| - 1]) + Size(ps[|ps| - 1])
  }

  function PartBytes(p: Part): (b: seq<Byte>)
    requires GoodPart(p)
    ensures |b| == Size(p)
  {
    match p
    case Group(t) =>
      GroupBound(t);
      TwoBytes(HexNumber(t))
    case Dotted(octets) => IPv4.Denoted(octets)
  }

  /** The parts with colons between them. */
  function Text(ps: seq<Part>): Bytes {
    if ps == [] then []
    else PartText(ps[0]) + if |ps| == 1 then [] else [58] + Text(ps[1..])
  }

  function BytesOf(ps: seq<Part>): (b: seq<Byte>)
    requires AllGood(ps)
    ensures |b| == ByteCount(ps)
  {
    if ps == [] then [] else BytesOf(ps[..|ps| - 1]) + PartBytes(ps[|ps| - 1])
  }

  /** All groups, or those before and after "::", which stands for at least one group of zeros. */
  datatype Form = Full(ps: seq<Part>) | Gapped(left: seq<Part>, right: seq<Part>)

  predicate ValidForm(f: Form) {
    match f
    case Full(ps) => GoodParts(ps, true) && ByteCount(ps) == 16
    case Gapped(left, right) =>
      GoodParts(left, false) && GoodParts(right, true) && ByteCount(left) + ByteCount(right) <= 14
  }

  function FormText(f: Form): Bytes {
    match f
    case Full(ps) => Text(ps)
    case Gapped(left, right) => Text(left) + [58, 58] + Text(right)
  }

  /** The bytes of the address. */
  function FormBytes(f: Form): (ip: seq<Byte>)
    requires ValidForm(f)
    ensures |ip| == 16
  {
    match f
    case Full(ps) => BytesOf(ps)
    case Gapped(left, right) =>
      BytesOf(left) + seq(16 - ByteCount(left) - ByteCount(right), _ => 0) + BytesOf(right)
  }

  ghost predicate Spells(f: Form, s: Bytes) {
    ValidForm(f) && FormText(f) == s
  }

  ghost predicate NoForm(s: Bytes) {
    forall f :: !Spells(f, s)
  }

  lemma {:induction false} ThreeTexts(a: Bytes, b: Bytes, c: Bytes)
    ensures a + [COLON] + (b + [COLON] + c) == a + [COLON] + b + [COLON] + c
  {
  }

  lemma {:induction false} TextSnoc(ps: seq<Part>, p: Part)
    requires ps != []
    ensures Text(ps + [p]) == Text(ps) + [COLON] + PartText(p)
  {
    assert (ps + [p])[1..] == ps[1..] + [p];
    if |ps| > 1 {
      TextSnoc(ps[1..], p);
      ThreeTexts(PartText(ps[0]), Text(ps[1..]), PartText(p));
    }
  }

  lemma {:induction false} BytesSnoc(ps: seq<Part>, p: Part)
    requires AllGood(ps) && GoodPart(p)
    ensures AllGood(ps + [p]) && BytesOf(ps + [p]) == BytesOf(ps) + PartBytes(p)
  {
    assert (ps + [p])[..|ps|] == ps;
  }

  // ------------------------------------------------- the next part of a form

  /** What is left of a form: some parts, and the parts after "::" if that is still to come. */
  function RestText(ps: seq<Part>, after: Option<seq<Part>>): Bytes {
    Text(ps) + if after.None? then [] else [COLON, COLON] + Text(after.value)
  }

  /** What follows the first part. */
  function Following(ps: seq<Part>, after: Option<seq<Part>>): Bytes
    requires ps != []
  {
    if |ps| > 1 then [COLON] + RestText(ps[1..], after)
    else if after.Some? then [COLON, COLON] + Text(after.value)
    else []
  }

  lemma {:induction false} FirstText(x: Bytes, y: Bytes, z: Bytes)
    ensures x + ([COLON] + y) + z == x + ([COLON] + (y + z)) && x + [] == x
  {
  }

  lemma {:induction false} RestSplit(ps: seq<Part>, after: Option<seq<Part>>)
    requires ps != []
    ensures RestText(ps, after) == PartText(ps[0]) + Following(ps, after)
  {
    var x, z := PartText(ps[0]), if after.None? then [] else [COLON, COLON] + Text(after.value);
    assert RestText(ps, after) == Text(ps) + z;
    if |ps| > 1 {
      assert Text(ps) == x + ([COLON] + Text(ps[1..]));
      FirstText(x, Text(ps[1..]), z);
    } else {
      FirstText(x, [], z);
    }
  }

  lemma {:induction false} PartStarts(p: Part)
    requires GoodPart(p)
    ensures PartText(p) != [] && HexValue(PartText(p)[0]) >= 0
  {
    if p.Dotted? {
      assert PartText(p)[0] == p.octets[0][0];
      assert IPv4.OctetText(p.octets[0]);
    }
  }

  /** The hex digits at the start of t. */
  ghost predicate HexRun(t: Bytes, k: nat) {
    k <= |t| && (forall i :: 0 <= i < k ==> HexValue(t[i]) >= 0) && (k < |t| ==> HexValue(t[k]) < 0)
  }

  /** The hex digits are the group, or the first octet of an IPv4 address, which a dot follows. */
  lemma {:induction false} RunOfPart(t: Bytes, k: nat, ps: seq<Part>, after: Option<seq<Part>>)
    requires ps != [] && GoodParts(ps, after.None?) && t == RestText(ps, after) && HexRun(t, k)
    ensures 1 <= k <= 4
    ensures ps[0].Dotted? <==> k < |t| && t[k] == DOT
    ensures ps[0].Group? ==> t[..k] == ps[0].t && t[k..] == Following(ps, after)
    ensures ps[0].Dotted? ==> IPv4.IsAddress(t, ps[0].octets) && |ps| == 1 && after.None?
  {
    var p, follow := ps[0], Following(ps, after);
    assert GoodPart(p);
    RestSplit(ps, after);
    if p.Group? {
      RunOfGroup(t, k, p.t, follow);
    } else {
      assert |ps| == 1 && after.None? && t == PartText(p);
      RunOfDotted(t, k, p.octets);
    }
  }

  lemma {:induction false} RunOfGroup(t: Bytes, k: nat, x: Bytes, follow: Bytes)
    requires t == x + follow && HexText(x) && (follow == [] || follow[0] == COLON) && HexRun(t, k)
    ensures k == |x| && t[..k] == x && t[k..] == follow && !(k < |t| && t[k] == DOT)
  {
    assert forall i :: 0 <= i < |x| ==> t[i] == x[i];
    assert follow != [] ==> t[|x|] == follow[0];
  }

  lemma {:induction false} RunOfDotted(t: Bytes, k: nat, octets: seq<Bytes>)
    requires IPv4.Octets(octets) && t == IPv4.Join(DOT, octets) && HexRun(t, k)
    ensures 1 <= k <= 4 && k < |t| && t[k] == DOT
  {
    var x := octets[0];
    assert IPv4.OctetText(x);
    OctetShort(x);
    assert t == x + ([DOT] + IPv4.Join(DOT, octets[1..]));
    assert forall i :: 0 <= i < |x| ==> t[i] == x[i] && IsDigit(x[i]);
    assert t[|x|] == DOT;
  }

  /** A number up to 255 without leading zeros has at most three digits. */
  lemma {:induction false} OctetShort(x: Bytes)
    requires IPv4.OctetText(x)
    ensures |x| <= 3
  {
    if |x| > 3 {
      IPv4.ValPrefix(x, 4);
      ValueNext(x, 0);
      ValueNext(x, 1);
      ValueNext(x, 2);
      ValueNext(x, 3);
    }
  }

  lemma {:induction false} ValueNext(x: Bytes, n: nat)
    requires AllDigits(x) && n < |x|
    ensures Value(x[..n + 1]) == 10 * Value(x[..n]) + (x[n] - ZERO)
  {
    assert x[..n + 1][..n] == x[..n];
  }

  // -------------------------------------------------------------- progress

  /** The parts read so far; those after "::" are in right. */
  datatype Read = Read(left: seq<Part>, gap: bool, right: seq<Part>)

  /** What is left of f after these parts. */
  function PartsLeft(f: Form, r: Read): seq<Part> {
    if f.Full? then (if |r.left| <= |f.ps| then f.ps[|r.left|..] else [])
    else if r.gap then (if |r.right| <= |f.right| then f.right[|r.right|..] else [])
    else (if |r.left| <= |f.left| then f.left[|r.left|..] else [])
  }

  function AfterLeft(f: Form, r: Read): Option<seq<Part>> {
    if f.Gapped? && !r.gap then Some(f.right) else None
  }

  /** f begins with the parts read so far, and t is what is left of it. */
  ghost predicate OnTrack(f: Form, r: Read, t: Bytes) {
    && ValidForm(f) && t == RestText(PartsLeft(f, r), AfterLeft(f, r))
    && (f.Full? ==> !r.gap && r.left <= f.ps)
    && (f.Gapped? ==> if r.gap then r.left == f.left && r.right <= f.right else r.left <= f.left && |r.left| < |f.left|)
  }

  ghost predicate AllOnTrack(s: Bytes, r: Read, t: Bytes) {
    forall f :: Spells(f, s) ==> OnTrack(f, r, t)
  }

  ghost predicate GoodRead(r: Read) {
    GoodParts(r.left, false) && GoodParts(r.right, false) && (!r.gap ==> r.right == [])
  }

  function WithPart(r: Read, p: Part): Read {
    if r.gap then r.(right := r.right + [p]) else r.(left := r.left + [p])
  }

  /** The bytes read so far. */
  function ReadBytes(r: Read): seq<Byte>
    requires AllGood(r.left) && AllGood(r.right)
  {
    BytesOf(r.left) + BytesOf(r.right)
  }

  function Count(r: Read): nat {
    ByteCount(r.left) + ByteCount(r.right)
  }

  lemma {:induction false} CountSnoc(ps: seq<Part>, p: Part)
    ensures ByteCount(ps + [p]) == ByteCount(ps) + Size(p)
  {
    assert (ps + [p])[..|ps|] == ps;
  }

  lemma {:induction false} CountPrefix(done: seq<Part>, ps: seq<Part>)
    requires done <= ps && |done| < |ps|
    ensures ByteCount(done) + Size(ps[|done|]) <= ByteCount(ps)
    ensures |done| + 1 == |ps| ==> ByteCount(done) + Size(ps[|done|]) == ByteCount(ps)
    decreases |ps|
  {
    var init := ps[..|ps| - 1];
    if |done| < |init| {
      CountPrefix(done, init);
    } else {
      assert init == done;
    }
  }

  lemma {:induction false} EvenCount(ps: seq<Part>)
    ensures ByteCount(ps) % 2 == 0
  {
    if ps != [] {
      EvenCount(ps[..|ps| - 1]);
    }
  }

  lemma {:induction false} GoodPartsLeft(f: Form, r: Read, t: Bytes)
    requires OnTrack(f, r, t) && t != []
    ensures PartsLeft(f, r) != [] && GoodParts(PartsLeft(f, r), AfterLeft(f, r).None?)
  {
  }

  lemma {:induction false} PrefixNext(done: seq<Part>, all: seq<Part>, p: Part)
    requires done <= all && |done| < |all| && all[|done|] == p
    ensures done + [p] <= all && all[|done + [p]|..] == all[|done|..][1..]
  {
  }

  lemma {:induction false} BytesLeft(f: Form, r: Read, t: Bytes)
    requires OnTrack(f, r, t) && t != [] && (!r.gap ==> r.right == [])
    ensures PartsLeft(f, r) != []
    ensures var n := Count(r) + Size(PartsLeft(f, r)[0]);
            && n <= (if f.Full? then 16 else 14)
            && (f.Full? && |PartsLeft(f, r)| == 1 ==> n == 16)
  {
    GoodPartsLeft(f, r, t);
    match f
    case Full(ps) =>
      CountPrefix(r.left, ps);
    case Gapped(left, right) =>
      if r.gap {
        CountPrefix(r.right, right);
      } else {
        CountPrefix(r.left, left);
      }
  }

  /** The part at the start of t: whether it is an IPv4 address shows at its end. */
  lemma {:induction false} TrackPart(f: Form, r: Read, t: Bytes, k: nat)
    requires OnTrack(f, r, t) && t != [] && GoodRead(r) && HexRun(t, k)
    ensures 1 <= k <= 4 && Count(r) < 16
    ensures k < |t| && t[k] == DOT ==>
              Count(r) + 4 <= (if f.Full? then 16 else 14) && (f.Full? ==> Count(r) == 12) && !IPv4.NoAddress(t)
              && (f.Full? <==> !r.gap)
    ensures !(k < |t| && t[k] == DOT) ==>
              PartsLeft(f, r) != [] && PartsLeft(f, r)[0] == Group(t[..k]) &&
              t[k..] == Following(PartsLeft(f, r), AfterLeft(f, r))
  {
    GoodPartsLeft(f, r, t);
    RunOfPart(t, k, PartsLeft(f, r), AfterLeft(f, r));
    BytesLeft(f, r, t);
  }

  function FormOf(r: Read): Form {
    if r.gap then Gapped(r.left, r.right) else Full(r.left)
  }

  /** A group that ends the text completes the form. */
  lemma {:induction false} TrackLast(f: Form, r: Read, t: Bytes, k: nat)
    requires OnTrack(f, r, t) && t != [] && k <= |t|
    requires PartsLeft(f, r) != [] && PartsLeft(f, r)[0] == Group(t[..k])
    requires t[k..] == Following(PartsLeft(f, r), AfterLeft(f, r))
    requires t[k..] == []
    ensures f == FormOf(WithPart(r, Group(t[..k])))
  {
    var ps := PartsLeft(f, r);
    assert |ps| == 1 && ps == [Group(t[..k])];
    match f
    case Full(all) => assert all == r.left + ps;
    case Gapped(left, right) => assert right == r.right + ps;
  }

  lemma {:induction false} FollowingMore(ps: seq<Part>, after: Option<seq<Part>>, rest: Bytes)
    requires |ps| > 1 && GoodPart(ps[1]) && rest == Following(ps, after)
    ensures |rest| > 1 && rest[0] == COLON && rest[1] != COLON && rest[1..] == RestText(ps[1..], after)
  {
    PartStarts(ps[1]);
    RestSplit(ps[1..], after);
    assert rest[1..] == RestText(ps[1..], after);
    assert rest[1] == rest[1..][0];
  }

  /** After a group comes a colon and another part, or "::" and the parts after it. */
  lemma {:induction false} TrackMore(f: Form, r: Read, t: Bytes, k: nat)
    requires OnTrack(f, r, t) && t != [] && k <= |t|
    requires PartsLeft(f, r) != [] && PartsLeft(f, r)[0] == Group(t[..k])
    requires t[k..] == Following(PartsLeft(f, r), AfterLeft(f, r))
    requires t[k..] != []
    ensures |t| > k + 1 && t[k] == COLON
    ensures t[k + 1] != COLON ==> OnTrack(f, WithPart(r, Group(t[..k])), t[k + 1..])
    ensures t[k + 1] == COLON ==> !r.gap && OnTrack(f, Read(r.left + [Group(t[..k])], true, []), t[k + 2..])
  {
    var ps, after, p := PartsLeft(f, r), AfterLeft(f, r), Group(t[..k]);
    var rest := t[k..];
    GoodPartsLeft(f, r, t);
    assert |rest| > 1 ==> t[k] == rest[0] && t[k + 1] == rest[1] && t[k + 1..] == rest[1..] && t[k + 2..] == rest[2..];
    if |ps| > 1 {
      assert GoodPart(ps[1]);
      FollowingMore(ps, after, rest);
      NextPartsLeft(f, r, p);
    } else {
      LastLeftPart(f, r, p, t[k + 2..]);
    }
  }

  lemma {:induction false} NextPartsLeft(f: Form, r: Read, p: Part)
    requires ValidForm(f) && |PartsLeft(f, r)| > 1 && PartsLeft(f, r)[0] == p
    requires (f.Full? ==> !r.gap && r.left <= f.ps)
    requires (f.Gapped? ==> if r.gap then r.left == f.left && r.right <= f.right else r.left <= f.left)
    ensures PartsLeft(f, WithPart(r, p)) == PartsLeft(f, r)[1..] && AfterLeft(f, WithPart(r, p)) == AfterLeft(f, r)
    ensures OnTrack(f, WithPart(r, p), RestText(PartsLeft(f, r)[1..], AfterLeft(f, r)))
  {
    match f
    case Full(ps) => PrefixNext(r.left, ps, p);
    case Gapped(left, right) =>
      if r.gap {
        PrefixNext(r.right, right, p);
      } else {
        PrefixNext(r.left, left, p);
      }
  }

  lemma {:induction false} LastLeftPart(f: Form, r: Read, p: Part, t: Bytes)
    requires ValidForm(f) && f.Gapped? && !r.gap && r.left <= f.left && PartsLeft(f, r) == [p] && t == Text(f.right)
    ensures OnTrack(f, Read(r.left + [p], true, []), t)
  {
    assert f.left == r.left + [p];
    assert f.right[0..] == f.right && t == RestText(f.right, None);
  }

  // ------------------------------------------------------------------ parsing

  /** s is the text of the parts read so far and of t. */
  ghost predicate Covers(s: Bytes, r: Read, t: Bytes) {
    s == (if r.gap then Text(r.left) + [COLON, COLON] + After(r.right, t) else After(r.left, t))
  }

  function After(ps: seq<Part>, t: Bytes): Bytes {
    if ps == [] then t else Text(ps) + [COLON] + t
  }

  lemma {:induction false} Regroup(a: Bytes, b: Bytes, c: Bytes)
    ensures a + (b + c) == a + b + c
  {
  }

  lemma {:induction false} SliceHead(t: Bytes, k: nat)
    requires k < |t|
    ensures t[k..] == [t[k]] + t[k + 1..]
  {
  }

  lemma {:induction false} AfterNext(ps: seq<Part>, p: Part, t: Bytes, rest: Bytes)
    requires t == PartText(p) + rest
    ensures After(ps, t) == Text(ps + [p]) + rest
  {
    if ps != [] {
      TextSnoc(ps, p);
      Regroup(Text(ps) + [COLON], PartText(p), rest);
    } else {
      assert [] + [p] == [p];
    }
  }

  /** The number of hex digits at the start of t. */
  function Run(t: Bytes): (k: nat)
    ensures HexRun(t, k)
  {
    if t == [] || HexValue(t[0]) < 0 then 0
    else
      var k := Run(t[1..]);
      assert forall i :: 0 < i < k + 1 ==> t[i] == t[1..][i - 1];
      k + 1
  }

  lemma {:induction false} RunUnique(t: Bytes, k: nat, j: nat)
    requires HexRun(t, k) && HexRun(t, j)
    ensures k == j
  {
  }

  lemma {:induction false} LongRun(t: Bytes)
    requires |t| > 4 && forall i :: 0 <= i <= 4 ==> HexValue(t[i]) >= 0
    ensures Run(t) > 4
  {
    assert HexRun(t, Run(t));
  }

  /** The digits of a group, of which there may be at most four. */
  method ReadGroup(t: Bytes) returns (k: nat, group: nat, ok: bool)
    ensures ok ==> k == Run(t) <= 4 && AllHex(t[..k]) && group == HexNumber(t[..k])
    ensures !ok ==> Run(t) > 4
  {
    k, group := 0, 0;
    while k < |t|
      invariant k <= 4 && k <= |t| && AllHex(t[..k]) && group == HexNumber(t[..k])
    {
      var d := HexValue(t[k]);
      if d < 0 {
        break;
      }
      if k == 4 {
        assert forall i :: 0 <= i < 4 ==> t[i] == t[..4][i];
        LongRun(t);
        return k, group, false;
      }
      assert t[..k + 1][..k] == t[..k];
      group := group * 16 + d;
      k := k + 1;
    }
    assert forall i :: 0 <= i < k ==> t[i] == t[..k][i];
    RunUnique(t, k, Run(t));
    ok := true;
  }

  /** Every form the text spells has as many bytes as r. */
  ghost predicate AllDone(s: Bytes, r: Read) {
    forall f :: Spells(f, s) ==> ValidForm(FormOf(r))
  }

  ghost predicate GoodFinal(r: Read) {
    GoodParts(r.left, !r.gap) && GoodParts(r.right, true) && (!r.gap ==> r.right == [])
  }

  lemma {:induction false} WithPartGood(r: Read, p: Part)
    requires GoodRead(r) && GoodPart(p)
    ensures GoodFinal(WithPart(r, p)) && (p.Group? ==> GoodRead(WithPart(r, p)))
    ensures Count(WithPart(r, p)) == Count(r) + Size(p)
  {
    CountSnoc(r.right, p);
    CountSnoc(r.left, p);
    GoodSnoc(r.right, p);
    GoodSnoc(r.left, p);
  }

  lemma {:induction false} GoodSnoc(ps: seq<Part>, p: Part)
    requires GoodParts(ps, false) && GoodPart(p)
    ensures GoodParts(ps, true) && GoodParts(ps + [p], true) && (p.Group? ==> GoodParts(ps + [p], false))
  {
    assert AllGood(ps + [p]);
  }

  lemma {:induction false} NoneLeft(s: Bytes, r: Read, t: Bytes)
    requires AllOnTrack(s, r, t) && t != [] && GoodRead(r)
    ensures Count(r) >= 16 || Run(t) == 0 || Run(t) > 4 ==> NoForm(s)
  {
    forall f | Spells(f, s) ensures Count(r) < 16 && 1 <= Run(t) <= 4 {
      TrackPart(f, r, t, Run(t));
    }
  }

  lemma {:induction false} DottedAll(s: Bytes, r: Read, t: Bytes, ts: seq<Bytes>)
    requires AllOnTrack(s, r, t) && t != [] && GoodRead(r) && Run(t) < |t| && t[Run(t)] == DOT
    ensures Count(r) > 12 || (!r.gap && Count(r) != 12) || IPv4.NoAddress(t) ==> NoForm(s)
    ensures IPv4.IsAddress(t, ts) ==> AllDone(s, WithPart(r, Dotted(ts)))
  {
    forall f | Spells(f, s)
      ensures Count(r) + 4 <= (if r.gap then 14 else 16) && (!r.gap ==> Count(r) == 12) && !IPv4.NoAddress(t)
    {
      TrackPart(f, r, t, Run(t));
    }
    if IPv4.IsAddress(t, ts) {
      WithPartGood(r, Dotted(ts));
    }
  }

  lemma {:induction false} GroupLast(s: Bytes, r: Read, t: Bytes)
    requires AllOnTrack(s, r, t) && t != [] && GoodRead(r) && Run(t) == |t|
    ensures AllDone(s, WithPart(r, Group(t)))
  {
    assert t[..|t|] == t && t[|t|..] == [];
    forall f | Spells(f, s) ensures ValidForm(FormOf(WithPart(r, Group(t)))) {
      TrackPart(f, r, t, |t|);
      TrackLast(f, r, t, |t|);
    }
  }

  lemma {:induction false} GroupMore(s: Bytes, r: Read, t: Bytes, k: nat)
    requires AllOnTrack(s, r, t) && GoodRead(r) && k == Run(t) && k < |t| && t[k] != DOT
    ensures t[k] != COLON || |t| == k + 1 ==> NoForm(s)
    ensures |t| > k + 1 && t[k + 1] != COLON ==> AllOnTrack(s, WithPart(r, Group(t[..k])), t[k + 1..])
    ensures |t| > k + 1 && t[k + 1] == COLON ==>
              (r.gap ==> NoForm(s)) && AllOnTrack(s, Read(r.left + [Group(t[..k])], true, []), t[k + 2..])
  {
    assert t[k..] != [];
    forall f | Spells(f, s)
      ensures |t| > k + 1 && t[k] == COLON
      ensures t[k + 1] != COLON ==> OnTrack(f, WithPart(r, Group(t[..k])), t[k + 1..])
      ensures t[k + 1] == COLON ==> !r.gap && OnTrack(f, Read(r.left + [Group(t[..k])], true, []), t[k + 2..])
    {
      TrackPart(f, r, t, k);
      TrackMore(f, r, t, k);
    }
  }

  /** The bytes of the parts read so far, and where "::" stands among them. */
  ghost predicate Counted(r: Read, ip: seq<Byte>, gap: Option<nat>) {
    && AllGood(r.left) && AllGood(r.right) && ip == ReadBytes(r) && |ip| == Count(r)
    && gap == (if r.gap then Some(ByteCount(r.left)) else None)
  }

  lemma {:induction false} RoomForGroup(r: Read)
    requires Count(r) < 16
    ensures Count(r) <= 14
  {
    EvenCount(r.left);
    EvenCount(r.right);
  }

  /** Between two parts. */
  ghost predicate Reading(s: Bytes, r: Read, t: Bytes, ip: seq<Byte>, gap: Option<nat>) {
    && GoodRead(r) && Covers(s, r, t) && AllOnTrack(s, r, t) && Counted(r, ip, gap) && |ip| <= 16
    && (t == [] ==> r.right == [] && (r.gap || r.left == []))
  }

  /** After the last part. */
  ghost predicate Final(s: Bytes, r: Read, ip: seq<Byte>, gap: Option<nat>) {
    GoodFinal(r) && s == FormText(FormOf(r)) && AllDone(s, r) && Counted(r, ip, gap) && |ip| <= 16
  }

  lemma {:induction false} CountedNext(r: Read, ip: seq<Byte>, gap: Option<nat>, p: Part)
    requires Counted(r, ip, gap) && GoodPart(p) && (!r.gap ==> r.right == [])
    ensures Counted(WithPart(r, p), ip + PartBytes(p), gap)
    ensures !r.gap ==> Counted(Read(r.left + [p], true, []), ip + PartBytes(p), Some(|ip + PartBytes(p)|))
  {
    if r.gap {
      CountedRight(r, ip, gap, p);
    } else {
      CountedLeft(r, ip, p);
    }
  }

  lemma {:induction false} CountedRight(r: Read, ip: seq<Byte>, gap: Option<nat>, p: Part)
    requires Counted(r, ip, gap) && GoodPart(p) && r.gap
    ensures Counted(Read(r.left, true, r.right + [p]), ip + PartBytes(p), gap)
  {
    BytesSnoc(r.right, p);
    Regroup(BytesOf(r.left), BytesOf(r.right), PartBytes(p));
  }

  lemma {:induction false} CountedLeft(r: Read, ip: seq<Byte>, p: Part)
    requires Counted(r, ip, None) && GoodPart(p) && !r.gap && r.right == []
    ensures Counted(Read(r.left + [p], false, []), ip + PartBytes(p), None)
    ensures Counted(Read(r.left + [p], true, []), ip + PartBytes(p), Some(|ip + PartBytes(p)|))
  {
    BytesSnoc(r.left, p);
    assert ip == BytesOf(r.left) && BytesOf(r.left + [p]) + [] == BytesOf(r.left + [p]);
  }

  lemma {:induction false} CoversLast(s: Bytes, r: Read, t: Bytes, p: Part)
    requires Covers(s, r, t) && t == PartText(p) && (!r.gap ==> r.right == [])
    ensures s == FormText(FormOf(WithPart(r, p)))
  {
    AfterNext(if r.gap then r.right else r.left, p, t, []);
    assert Text((if r.gap then r.right else r.left) + [p]) + [] == Text((if r.gap then r.right else r.left) + [p]);
  }

  lemma {:induction false} CoversNext(s: Bytes, r: Read, t: Bytes, k: nat)
    requires Covers(s, r, t) && k < |t| && t[k] == COLON && (!r.gap ==> r.right == [])
    ensures Covers(s, WithPart(r, Group(t[..k])), t[k + 1..])
  {
    var p := Group(t[..k]);
    var ps := if r.gap then r.right else r.left;
    AfterNext(ps, p, t, t[k..]);
    SliceHead(t, k);
    Regroup(Text(ps + [p]), [COLON], t[k + 1..]);
  }

  lemma {:induction false} CoversGap(s: Bytes, r: Read, t: Bytes)
    requires Covers(s, r, t) && !r.gap && r.left != [] && t != [] && t[0] == COLON
    ensures Covers(s, Read(r.left, true, []), t[1..])
  {
    SliceHead(t, 0);
    assert t[0..] == t;
    Regroup(Text(r.left) + [COLON], [COLON], t[1..]);
    assert Text(r.left) + [COLON] + [COLON] == Text(r.left) + [COLON, COLON];
  }

  /** What one round of the loop of parseIPv6 ends with. */
  datatype Round = Fails | Ends | Continues

  /** One part and the colons after it. */
  method ReadPart(t: Bytes, ip: seq<Byte>, gap: Option<nat>, ghost s: Bytes, ghost r: Read)
    returns (round: Round, t': Bytes, ip': seq<Byte>, gap': Option<nat>, ghost r': Read)
    requires Reading(s, r, t, ip, gap) && t != []
    ensures round.Fails? ==> NoForm(s)
    ensures round.Ends? ==> Final(s, r', ip', gap')
    ensures round.Continues? ==> Reading(s, r', t', ip', gap') && |t'| < |t|
  {
    round, t', ip', gap', r' := Fails, t, ip, gap, r;
    NoneLeft(s, r, t);
    if |ip| == 16 {
      return;
    }
    var k, group, ok := ReadGroup(t);
    if !ok || k == 0 {
      return;
    }
    if k < |t| && t[k] == DOT {
      round, ip', r' := ReadDotted(t, ip, gap, s, r);
      return;
    }
    round, t', ip', gap', r' := ReadAfterGroup(t, k, group, ip, gap, s, r);
  }

  /** An IPv4 address in the place of the last two groups. */
  method ReadDotted(t: Bytes, ip: seq<Byte>, gap: Option<nat>, ghost s: Bytes, ghost r: Read)
    returns (round: Round, ip': seq<Byte>, ghost r': Read)
    requires Reading(s, r, t, ip, gap) && t != [] && Run(t) < |t| && t[Run(t)] == DOT
    ensures !round.Continues? && (round.Fails? ==> NoForm(s)) && (round.Ends? ==> Final(s, r', ip', gap))
  {
    round, ip', r' := Fails, ip, r;
    DottedAll(s, r, t, []);
    if |ip| > 12 || (gap.None? && |ip| != 12) {
      return;
    }
    var v4, ts := IPv4.Parse(t);
    if v4.None? {
      return;
    }
    DottedFinal(s, r, t, ip, gap, ts);
    round, ip', r' := Ends, ip + v4.value, WithPart(r, Dotted(ts));
  }

  /** A group: the end of the text, a colon, or "::" follows. */
  method ReadAfterGroup(t: Bytes, k: nat, group: nat, ip: seq<Byte>, gap: Option<nat>, ghost s: Bytes, ghost r: Read)
    returns (round: Round, t': Bytes, ip': seq<Byte>, gap': Option<nat>, ghost r': Read)
    requires Reading(s, r, t, ip, gap) && t != [] && |ip| < 16 && k == Run(t) && 0 < k <= 4
    requires AllHex(t[..k]) && group == HexNumber(t[..k]) && (k < |t| ==> t[k] != DOT)
    ensures round.Fails? ==> NoForm(s)
    ensures round.Ends? ==> Final(s, r', ip', gap')
    ensures round.Continues? ==> Reading(s, r', t', ip', gap') && |t'| < |t|
  {
    ghost var p := Group(t[..k]);
    GroupBound(t[..k]);
    round, t', gap', r' := Fails, t[k..], gap, WithPart(r, p);
    ip' := ip + TwoBytes(group);
    if k == |t| {
      GroupFinal(s, r, t, k, ip, gap);
      round := Ends;
      return;
    }
    round, t', gap', r' := ReadColons(t, k, ip, ip', gap, s, r);
  }

  method ReadColons(t: Bytes, k: nat, ghost ip: seq<Byte>, ip': seq<Byte>, gap: Option<nat>, ghost s: Bytes,
                    ghost r: Read)
    returns (round: Round, t': Bytes, gap': Option<nat>, ghost r': Read)
    requires Reading(s, r, t, ip, gap) && |ip| < 16 && k == Run(t) && k < |t| && t[k] != DOT && HexText(t[..k])
    requires ip' == ip + PartBytes(Group(t[..k]))
    ensures !round.Ends? && (round.Fails? ==> NoForm(s))
    ensures round.Continues? ==> Reading(s, r', t', ip', gap') && |t'| < |t|
  {
    ghost var p := Group(t[..k]);
    round, t', gap', r' := Fails, t, gap, WithPart(r, p);
    GroupMore(s, r, t, k);
    if t[k] != COLON || k + 1 == |t| {
      return;
    }
    t' := t[k + 1..];
    if t[k + 1] == COLON {
      if gap.Some? {
        return;
      }
      GapReading(s, r, t, k, ip, gap);
      assert t'[1..] == t[k + 2..];
      gap', t', r' := Some(|ip'|), t'[1..], Read(r.left + [p], true, []);
    } else {
      GroupReading(s, r, t, k, ip, gap);
    }
    round := Continues;
  }

  lemma {:induction false} DottedFinal(s: Bytes, r: Read, t: Bytes, ip: seq<Byte>, gap: Option<nat>, ts: seq<Bytes>)
    requires Reading(s, r, t, ip, gap) && t != [] && Run(t) < |t| && t[Run(t)] == DOT && |ip| <= 12
    requires IPv4.IsAddress(t, ts)
    ensures Final(s, WithPart(r, Dotted(ts)), ip + IPv4.Denoted(ts), gap)
  {
    DottedAll(s, r, t, ts);
    PartFinal(s, r, t, ip, gap, Dotted(ts));
  }

  lemma {:induction false} GroupFinal(s: Bytes, r: Read, t: Bytes, k: nat, ip: seq<Byte>, gap: Option<nat>)
    requires Reading(s, r, t, ip, gap) && |ip| < 16 && Run(t) == k == |t| && HexText(t[..k])
    ensures Final(s, WithPart(r, Group(t[..k])), ip + PartBytes(Group(t[..k])), gap)
  {
    TakeAll(t);
    GroupLast(s, r, t);
    RoomForGroup(r);
    PartFinal(s, r, t, ip, gap, Group(t));
  }

  /** The last part. */
  lemma {:induction false} PartFinal(s: Bytes, r: Read, t: Bytes, ip: seq<Byte>, gap: Option<nat>, p: Part)
    requires GoodRead(r) && Covers(s, r, t) && GoodPart(p) && t == PartText(p) && AllDone(s, WithPart(r, p))
    requires Counted(r, ip, gap) && Count(r) + Size(p) <= 16
    ensures Final(s, WithPart(r, p), ip + PartBytes(p), gap)
  {
    WithPartGood(r, p);
    CountedNext(r, ip, gap, p);
    CoversLast(s, r, t, p);
  }

  lemma {:induction false} GroupReading(s: Bytes, r: Read, t: Bytes, k: nat, ip: seq<Byte>, gap: Option<nat>)
    requires Reading(s, r, t, ip, gap) && |ip| < 16 && k == Run(t) && k + 1 < |t| && HexText(t[..k]) && t[k] == COLON
    requires t[k + 1] != COLON
    ensures Reading(s, WithPart(r, Group(t[..k])), t[k + 1..], ip + PartBytes(Group(t[..k])), gap)
  {
    GroupMore(s, r, t, k);
    RoomForGroup(r);
    WithPartGood(r, Group(t[..k]));
    CountedNext(r, ip, gap, Group(t[..k]));
    CoversNext(s, r, t, k);
  }

  lemma {:induction false} GapReading(s: Bytes, r: Read, t: Bytes, k: nat, ip: seq<Byte>, gap: Option<nat>)
    requires Reading(s, r, t, ip, gap) && |ip| < 16 && k == Run(t) && k + 1 < |t| && HexText(t[..k]) && t[k] == COLON
    requires t[k + 1] == COLON && !r.gap
    ensures var ip' := ip + PartBytes(Group(t[..k]));
            Reading(s, Read(r.left + [Group(t[..k])], true, []), t[k + 2..], ip', Some(|ip'|))
  {
    var p := Group(t[..k]);
    GroupMore(s, r, t, k);
    RoomForGroup(r);
    WithPartGood(r, p);
    CountedNext(r, ip, gap, p);
    CoversNext(s, r, t, k);
    CoversGap(s, WithPart(r, p), t[k + 1..]);
    assert t[k + 1..][1..] == t[k + 2..];
  }

  lemma {:induction false} StartFull(s: Bytes)
    ensures Covers(s, Read([], false, []), s)
    ensures !(|s| >= 2 && s[0] == COLON && s[1] == COLON) ==> AllOnTrack(s, Read([], false, []), s)
  {
    var r := Read([], false, []);
    if !(|s| >= 2 && s[0] == COLON && s[1] == COLON) {
      forall f | Spells(f, s) ensures OnTrack(f, r, s) {
        StartTrack(f, s);
      }
    }
  }

  lemma {:induction false} StartTrack(f: Form, s: Bytes)
    requires Spells(f, s) && !(|s| >= 2 && s[0] == COLON && s[1] == COLON)
    ensures OnTrack(f, Read([], false, []), s)
  {
    match f
    case Full(ps) =>
      assert ps[0..] == ps && RestText(ps, None) == Text(ps) + [] == Text(ps);
    case Gapped(left, right) =>
      assert left[0..] == left;
      if left == [] {
        GapFirst(right);
      }
      Regroup(Text(left), [COLON, COLON], Text(right));
  }

  lemma {:induction false} GapFirst(right: seq<Part>)
    ensures var s := FormText(Gapped([], right)); |s| >= 2 && s[0] == COLON && s[1] == COLON
  {
    assert FormText(Gapped([], right)) == [COLON, COLON] + Text(right);
  }

  lemma {:induction false} StartGap(s: Bytes)
    requires |s| >= 2 && s[0] == COLON && s[1] == COLON
    ensures Covers(s, Read([], true, []), s[2..]) && AllOnTrack(s, Read([], true, []), s[2..])
  {
    assert s == [COLON, COLON] + s[2..];
    forall f | Spells(f, s) ensures OnTrack(f, Read([], true, []), s[2..]) {
      FirstIsColon(f, s);
    }
  }

  lemma {:induction false} TextStarts(ps: seq<Part>)
    requires ps != [] && GoodPart(ps[0])
    ensures Text(ps) != [] && Text(ps)[0] != COLON
  {
    PartStarts(ps[0]);
  }

  /** Only a gap can come first with a colon. */
  lemma {:induction false} FirstIsColon(f: Form, s: Bytes)
    requires Spells(f, s) && |s| >= 2 && s[0] == COLON
    ensures f.Gapped? && f.left == [] && s[2..] == Text(f.right) && f.right[0..] == f.right
  {
    match f
    case Full(ps) =>
      assert ps != [];
      TextStarts(ps);
    case Gapped(left, right) =>
      if left != [] {
        TextStarts(left);
      } else {
        assert s == [COLON, COLON] + Text(right);
      }
  }

  // -------------------------------------------------------------- uniqueness

  /** Nothing is left of a form whose text has ended. */
  lemma {:induction false} FormEnds(f: Form, r: Read)
    requires OnTrack(f, r, []) && (!r.gap ==> r.right == [])
    ensures f == FormOf(r)
  {
    NothingLeft(PartsLeft(f, r), AfterLeft(f, r));
    match f
    case Full(ps) => assert ps == r.left;
    case Gapped(left, right) => assert right == r.right;
  }

  /** An IPv4 address ends the form. */
  lemma {:induction false} DottedEnds(f: Form, r: Read, t: Bytes, octets: seq<Bytes>)
    requires OnTrack(f, r, t) && GoodRead(r) && Run(t) < |t| && t[Run(t)] == DOT && IPv4.IsAddress(t, octets)
    ensures f == FormOf(WithPart(r, Dotted(octets)))
  {
    var ps := PartsLeft(f, r);
    GoodPartsLeft(f, r, t);
    RunOfPart(t, Run(t), ps, AfterLeft(f, r));
    IPv4.AddressUnique(t, ps[0].octets, octets);
    assert ps == [Dotted(octets)];
    match f
    case Full(all) => assert all == r.left + ps;
    case Gapped(left, right) => assert right == r.right + ps;
  }

  lemma {:induction false} DottedText(f: Form, r: Read, t: Bytes) returns (octets: seq<Bytes>)
    requires OnTrack(f, r, t) && GoodRead(r) && Run(t) < |t| && t[Run(t)] == DOT
    ensures IPv4.IsAddress(t, octets)
  {
    GoodPartsLeft(f, r, t);
    RunOfPart(t, Run(t), PartsLeft(f, r), AfterLeft(f, r));
    octets := PartsLeft(f, r)[0].octets;
  }

  /** Two forms that begin with the same parts and have the same text after them are the same. */
  lemma {:induction false} FormsAgree(f: Form, g: Form, r: Read, t: Bytes)
    requires OnTrack(f, r, t) && OnTrack(g, r, t) && GoodRead(r)
    ensures f == g
    decreases |t|, 1
  {
    var k := Run(t);
    if t == [] {
      FormEnds(f, r);
      FormEnds(g, r);
    } else if k < |t| && t[k] == DOT {
      var octets := DottedText(f, r, t);
      DottedEnds(f, r, t, octets);
      DottedEnds(g, r, t, octets);
    } else {
      TrackPart(f, r, t, k);
      TrackPart(g, r, t, k);
      if t[k..] == [] {
        TrackLast(f, r, t, k);
        TrackLast(g, r, t, k);
      } else {
        FormsAgreeAfter(f, g, r, t, k);
      }
    }
  }

  /** The same after a group that does not end the text. */
  lemma {:induction false} FormsAgreeAfter(f: Form, g: Form, r: Read, t: Bytes, k: nat)
    requires OnTrack(f, r, t) && OnTrack(g, r, t) && GoodRead(r) && t != [] && k <= |t| && t[k..] != []
    requires PartsLeft(f, r) != [] && PartsLeft(f, r)[0] == Group(t[..k])
    requires t[k..] == Following(PartsLeft(f, r), AfterLeft(f, r))
    requires PartsLeft(g, r) != [] && PartsLeft(g, r)[0] == Group(t[..k])
    requires t[k..] == Following(PartsLeft(g, r), AfterLeft(g, r))
    ensures f == g
    decreases |t|, 0
  {
    TrackMore(f, r, t, k);
    TrackMore(g, r, t, k);
    GoodPartsLeft(f, r, t);
    WithPartGood(r, Group(t[..k]));
    if t[k + 1] != COLON {
      FormsAgree(f, g, WithPart(r, Group(t[..k])), t[k + 1..]);
    } else {
      FormsAgree(f, g, Read(r.left + [Group(t[..k])], true, []), t[k + 2..]);
    }
  }

  /** A text spells at most one form. */
  lemma {:induction false} SpellsUnique(f: Form, g: Form, s: Bytes)
    requires Spells(f, s) && Spells(g, s)
    ensures f == g
  {
    if |s| >= 2 && s[0] == COLON && s[1] == COLON {
      StartGap(s);
      FormsAgree(f, g, Read([], true, []), s[2..]);
    } else {
      StartTrack(f, s);
      StartTrack(g, s);
      FormsAgree(f, g, Read([], false, []), s);
    }
  }

  lemma {:induction false} OnlyForm(s: Bytes, f: Form)
    requires Spells(f, s)
    ensures forall g :: Spells(g, s) ==> g == f
  {
    forall g | Spells(g, s) ensures g == f {
      SpellsUnique(g, f, s);
    }
  }

  /** parseIPv6 accepts exactly the forms, and undoes printing an address in any of them. */
  method Parse(s: Bytes) returns (r: Option<seq<Byte>>, ghost f: Form)
    ensures r.Some? ==> Spells(f, s) && r.value == FormBytes(f)
    ensures r.None? ==> NoForm(s)
    ensures forall g :: Spells(g, s) ==> r == Some(FormBytes(g))
  {
    r, f := ParseForm(s);
    if r.Some? {
      OnlyForm(s, f);
    }
  }

  method ParseForm(s: Bytes) returns (r: Option<seq<Byte>>, ghost f: Form)
    ensures r.Some? ==> Spells(f, s) && r.value == FormBytes(f)
    ensures r.None? ==> NoForm(s)
  {
    var t, ip: seq<Byte>, gap: Option<nat> := s, [], None;
    ghost var read := Read([], false, []);
    f := Full([]);
    if |s| >= 2 && s[0] == COLON && s[1] == COLON {
      StartGap(s);
      t, gap, read := s[2..], Some(0), Read([], true, []);
    } else {
      StartFull(s);
    }
    var ended := false;
    while !ended && t != []
      invariant if ended then Final(s, read, ip, gap) else Reading(s, read, t, ip, gap)
      decreases !ended, |t|
    {
      var round;
      round, t, ip, gap, read := ReadPart(t, ip, gap, s, read);
      if round.Fails? {
        return None, f;
      }
      ended := round.Ends?;
    }
    if !ended {
      EmptyFinal(s, read, ip, gap);
    }
    f := FormOf(read);
    FinalForm(s, read, ip, gap);
    if gap.None? {
      r := if |ip| == 16 then Some(ip) else None;
    } else if |ip| == 16 {
      r := None;
    } else {
      r := Some(ip[..gap.value] + seq(16 - |ip|, _ => 0) + ip[gap.value..]);
    }
  }

  /** "::" may end the text. */
  lemma {:induction false} EmptyFinal(s: Bytes, r: Read, ip: seq<Byte>, gap: Option<nat>)
    requires Reading(s, r, [], ip, gap)
    ensures Final(s, r, ip, gap)
  {
    assert s == FormText(FormOf(r));
    forall f | Spells(f, s) ensures ValidForm(FormOf(r)) {
      assert OnTrack(f, r, []);
      NothingLeft(PartsLeft(f, r), AfterLeft(f, r));
    }
  }

  lemma {:induction false} NothingLeft(ps: seq<Part>, after: Option<seq<Part>>)
    requires RestText(ps, after) == [] && GoodParts(ps, after.None?)
    ensures ps == [] && after.None?
  {
    if ps != [] {
      TextStarts(ps);
    }
  }

  /** The form is valid exactly if the number of bytes is right. */
  lemma {:induction false} FinalForm(s: Bytes, r: Read, ip: seq<Byte>, gap: Option<nat>)
    requires Final(s, r, ip, gap)
    ensures !ValidForm(FormOf(r)) ==> NoForm(s)
    ensures ValidForm(FormOf(r)) ==> Spells(FormOf(r), s)
    ensures ValidForm(FormOf(r)) <==> if gap.None? then |ip| == 16 else |ip| != 16
    ensures ValidForm(FormOf(r)) && gap.None? ==> ip == FormBytes(FormOf(r))
    ensures ValidForm(FormOf(r)) && gap.Some? ==>
              gap.value <= |ip| < 16 &&
              ip[..gap.value] + seq(16 - |ip|, _ => 0) + ip[gap.value..] == FormBytes(FormOf(r))
  {
    FinalValid(r, ip, gap);
    if ValidForm(FormOf(r)) {
      FinalBytes(r, ip, gap);
    }
  }

  lemma {:induction false} FinalValid(r: Read, ip: seq<Byte>, gap: Option<nat>)
    requires GoodFinal(r) && Counted(r, ip, gap) && |ip| <= 16
    ensures ValidForm(FormOf(r)) <==> if gap.None? then |ip| == 16 else |ip| != 16
  {
    EvenCount(r.left);
    EvenCount(r.right);
  }

  lemma {:induction false} FinalBytes(r: Read, ip: seq<Byte>, gap: Option<nat>)
    requires Counted(r, ip, gap) && (!r.gap ==> r.right == []) && ValidForm(FormOf(r))
    ensures gap.None? ==> ip == FormBytes(FormOf(r))
    ensures gap.Some? ==>
              gap.value <= |ip| < 16 &&
              ip[..gap.value] + seq(16 - |ip|, _ => 0) + ip[gap.value..] == FormBytes(FormOf(r))
  {
    if gap.Some? {
      assert ip[..gap.value] == BytesOf(r.left) && ip[gap.value..] == BytesOf(r.right);
    } else {
      assert BytesOf(r.left) + [] == BytesOf(r.left);
    }
  }

  // --------------------------------------------------------------- printing

  /** The bytes of the hex digits 0 to 15, with small and with capital letters. */
  const SMALL: Bytes := [48, 49, 50, 51, 52, 53, 54, 55, 56, 57, 97, 98, 99, 100, 101, 102]
  const CAPITAL: Bytes := [48, 49, 50, 51, 52, 53, 54, 55, 56, 57, 65, 66, 67, 68, 69, 70]

  predicate IsHexDigit(c: Byte, v: nat) {
    v < 16 && (c == SMALL[v] || c == CAPITAL[v])
  }

  /** The digits t, each in either case, are v in base 16. */
  predicate IsHexText(t: Bytes, v: nat) {
    if t == [] then v == 0 else IsHexDigit(t[|t| - 1], v % 16) && IsHexText(t[..|t| - 1], v / 16)
  }

  lemma {:induction false} DigitValue(c: Byte, v: nat)
    requires v < 16
    ensures IsHexDigit(c, v) <==> HexValue(c) == v
  {
    assert SMALL[v] == if v < 10 then 48 + v else 87 + v;
    assert CAPITAL[v] == if v < 10 then 48 + v else 55 + v;
  }

  /** Texts are read as the number they are, whatever the case of their letters. */
  lemma {:induction false} HexTextNumber(t: Bytes, v: nat)
    ensures IsHexText(t, v) <==> AllHex(t) && HexNumber(t) == v
    decreases |t|
  {
    if t != [] {
      var init, c := t[..|t| - 1], t[|t| - 1];
      assert t == init + [c];
      HexTextNumber(init, v / 16);
      DigitValue(c, v % 16);
    }
  }

  /** The last n hex digits of v. */
  function HexDigits(v: nat, n: nat, capital: bool): (t: Bytes)
    ensures |t| == n
  {
    if n == 0 then [] else HexDigits(v / 16, n - 1, capital) + [(if capital then CAPITAL else SMALL)[v % 16]]
  }

  lemma {:induction false} HexDigitsText(v: nat, n: nat, capital: bool)
    requires v < Pow16(n)
    ensures IsHexText(HexDigits(v, n, capital), v)
  {
    if n > 0 {
      var t := HexDigits(v, n, capital);
      HexDigitsText(v / 16, n - 1, capital);
      assert t[..|t| - 1] == HexDigits(v / 16, n - 1, capital);
    }
  }

  function NumberOf(high: nat, low: nat): (v: nat)
    requires high < 256 && low < 256
    ensures v < 65536 && v / 256 == high && v % 256 == low
  {
    256 * high + low
  }

  /** A group of one to four digits for two bytes. */
  ghost predicate IsGroupOf(p: Part, high: Byte, low: Byte) {
    p.Group? && 1 <= |p.t| <= 4 && IsHexText(p.t, NumberOf(high, low))
  }

  lemma {:induction false} GroupBytes(p: Part, high: Byte, low: Byte)
    requires IsGroupOf(p, high, low)
    ensures GoodPart(p) && PartBytes(p) == [high, low]
  {
    HexTextNumber(p.t, NumberOf(high, low));
  }

  /** The groups ps print the bytes ip. */
  ghost predicate Prints(ps: seq<Part>, ip: seq<Byte>)
    decreases |ps|
  {
    if ps == [] then ip == []
    else
      var n := |ip| - 2;
      n >= 0 && Prints(ps[..|ps| - 1], ip[..n]) && IsGroupOf(ps[|ps| - 1], ip[n], ip[n + 1])
  }

  /** The parts ps, none of which is an IPv4 address, have the bytes ip. */
  ghost predicate HaveBytes(ps: seq<Part>, ip: seq<Byte>) {
    GoodParts(ps, false) && ByteCount(ps) == |ip| && BytesOf(ps) == ip
  }

  lemma {:induction false} BytesWithGroup(ps: seq<Part>, ip: seq<Byte>, p: Part, high: Byte, low: Byte)
    requires HaveBytes(ps, ip) && IsGroupOf(p, high, low)
    ensures HaveBytes(ps + [p], ip + [high, low])
  {
    GroupBytes(p, high, low);
    GoodSnoc(ps, p);
    CountSnoc(ps, p);
    BytesSnoc(ps, p);
  }

  lemma {:induction false} LastPrinted(ps: seq<Part>, ip: seq<Byte>)
    returns (init: seq<Part>, p: Part, front: seq<Byte>, high: Byte, low: Byte)
    requires ps != [] && Prints(ps, ip)
    ensures ps == init + [p] && ip == front + [high, low] && Prints(init, front) && IsGroupOf(p, high, low)
  {
    var n := |ip| - 2;
    init, p, front, high, low := ps[..|ps| - 1], ps[|ps| - 1], ip[..n], ip[n], ip[n + 1];
  }

  lemma {:induction false} PrintsBytes(ps: seq<Part>, ip: seq<Byte>)
    requires Prints(ps, ip)
    ensures HaveBytes(ps, ip)
    decreases |ps|
  {
    if ps != [] {
      var init, p, front, high, low := LastPrinted(ps, ip);
      PrintsBytes(init, front);
      BytesWithGroup(init, front, p, high, low);
    }
  }

  /** A group of all four digits. */
  function PrintedGroup(high: Byte, low: Byte, capital: bool): Part {
    Group(HexDigits(NumberOf(high, low), 4, capital))
  }

  lemma {:induction false} PrintedGroupIs(high: Byte, low: Byte, capital: bool)
    ensures IsGroupOf(PrintedGroup(high, low, capital), high, low)
  {
    assert Pow16(1) == 16 && Pow16(2) == 256 && Pow16(3) == 4096 && Pow16(4) == 65536;
    HexDigitsText(NumberOf(high, low), 4, capital);
  }

  function PrintedParts(ip: seq<Byte>, capital: bool): (ps: seq<Part>)
    requires |ip| % 2 == 0
  {
    if ip == [] then []
    else PrintedParts(ip[..|ip| - 2], capital) + [PrintedGroup(ip[|ip| - 2], ip[|ip| - 1], capital)]
  }

  lemma {:induction false} PrintsMore(ps: seq<Part>, ip: seq<Byte>, p: Part, high: Byte, low: Byte)
    requires Prints(ps, ip) && IsGroupOf(p, high, low)
    ensures Prints(ps + [p], ip + [high, low])
  {
    var more, bytes := ps + [p], ip + [high, low];
    assert more[..|more| - 1] == ps && bytes[..|bytes| - 2] == ip;
  }

  lemma {:induction false} PrintedPrints(ip: seq<Byte>, capital: bool)
    requires |ip| % 2 == 0
    ensures Prints(PrintedParts(ip, capital), ip)
    decreases |ip|
  {
    if ip != [] {
      var front, high, low := ip[..|ip| - 2], ip[|ip| - 2], ip[|ip| - 1];
      PrintedPrints(front, capital);
      PrintedGroupIs(high, low, capital);
      PrintsMore(PrintedParts(front, capital), front, PrintedGroup(high, low, capital), high, low);
      assert ip == front + [high, low];
    }
  }

  /** Eight groups that print 16 bytes are a form of this address; every address has one. */
  lemma {:induction false} PrintedFull(ps: seq<Part>, ip: seq<Byte>, capital: bool)
    requires |ip| == 16
    ensures Prints(ps, ip) ==> ValidForm(Full(ps)) && FormBytes(Full(ps)) == ip
    ensures Prints(PrintedParts(ip, capital), ip)
  {
    PrintedPrints(ip, capital);
    if Prints(ps, ip) {
      PrintsBytes(ps, ip);
    }
  }

  lemma {:induction false} GoodLast(ps: seq<Part>)
    requires GoodParts(ps, false)
    ensures GoodParts(ps, true)
  {
  }

  lemma {:induction false} GapBytes(left: seq<Part>, right: seq<Part>)
    requires ValidForm(Gapped(left, right))
    ensures var ip, a, b := FormBytes(Gapped(left, right)), ByteCount(left), 16 - ByteCount(right);
            a < b && ip[..a] == BytesOf(left) && ip[b..] == BytesOf(right) && forall i :: a <= i < b ==> ip[i] == 0
  {
  }

  lemma {:induction false} SameAround(x: seq<Byte>, y: seq<Byte>, a: nat, b: nat)
    requires |x| == |y| && a <= b <= |x| && x[..a] == y[..a] && x[b..] == y[b..] &&
             forall i :: a <= i < b ==> x[i] == y[i]
    ensures x == y
  {
    assert x == x[..a] + x[a..b] + x[b..] && y == y[..a] + y[a..b] + y[b..];
  }

  lemma {:induction false} GapForm(ip: seq<Byte>, a: nat, b: nat, left: seq<Part>, right: seq<Part>)
    requires |ip| == 16 && a + 2 <= b <= 16 && forall i :: a <= i < b ==> ip[i] == 0
    requires GoodParts(left, false) && GoodParts(right, true) && ByteCount(left) == a && ByteCount(right) == 16 - b
    requires BytesOf(left) == ip[..a] && BytesOf(right) == ip[b..]
    ensures ValidForm(Gapped(left, right)) && FormBytes(Gapped(left, right)) == ip
  {
    GapBytes(left, right);
    SameAround(FormBytes(Gapped(left, right)), ip, a, b);
  }

  lemma {:induction false} SidesForm(left: seq<Part>, right: seq<Part>, ip: seq<Byte>, a: nat, b: nat)
    requires |ip| == 16 && a < b <= 16 && forall i :: a <= i < b ==> ip[i] == 0
    requires HaveBytes(left, ip[..a]) && HaveBytes(right, ip[b..])
    ensures ValidForm(Gapped(left, right)) && FormBytes(Gapped(left, right)) == ip
  {
    EvenCount(left);
    EvenCount(right);
    GoodLast(right);
    GapForm(ip, a, b, left, right);
  }

  /** Groups that print the bytes around some groups of zeros are a form with "::" in their place. */
  lemma {:induction false} PrintedGapped(left: seq<Part>, right: seq<Part>, ip: seq<Byte>, a: nat, b: nat)
    requires |ip| == 16 && a < b <= 16 && forall i :: a <= i < b ==> ip[i] == 0
    requires Prints(left, ip[..a]) && Prints(right, ip[b..])
    ensures ValidForm(Gapped(left, right)) && FormBytes(Gapped(left, right)) == ip
  {
    PrintsBytes(left, ip[..a]);
    PrintsBytes(right, ip[b..]);
    SidesForm(left, right, ip, a, b);
  }
}
