/** The text form of IPv4 addresses: four numbers from 0 to 255 without leading zeros (parseIPv4 in cidr.go). */
module IPv4 {
  import opened ByteStrings
  import opened Decimal

  /** The texts, with sep between them. */
  function Join(sep: Byte, ts: seq<Bytes>): Bytes {
    if ts == [] then []
    else if |ts| == 1 then ts[0]
    else ts[0] + [sep] + Join(sep, ts[1..])
  }

  lemma {:induction false} JoinSnoc(sep: Byte, ts: seq<Bytes>, t: Bytes)
    requires ts != []
    ensures Join(sep, ts + [t]) == Join(sep, ts) + [sep] + t
  {
    if |ts| == 1 {
      assert (ts + [t])[1..] == [t];
    } else {
      JoinSnoc(sep, ts[1..], t);
      assert (ts + [t])[1..] == ts[1..] + [t];
    }
  }

  predicate OctetText(t: Bytes) {
    AllDigits(t) && t != [] && (t[0] == 48 ==> |t| == 1) && Value(t) <= 255
  }

  predicate Octets(ts: seq<Bytes>) {
    |ts| == 4 && forall i :: 0 <= i < 4 ==> OctetText(ts[i])
  }

  /** The bytes of the address the texts denote. */
  function Denoted(ts: seq<Bytes>): (ip: seq<Byte>)
    requires Octets(ts)
    ensures |ip| == 4
  {
    [Value(ts[0]), Value(ts[1]), Value(ts[2]), Value(ts[3])]
  }

  ghost predicate IsAddress(s: Bytes, ts: seq<Bytes>) {
    Octets(ts) && s == Join(46, ts)
  }

  lemma {:induction false} ValPrefix(t: Bytes, m: nat)
    requires AllDigits(t) && m <= |t|
    ensures Value(t[..m]) <= Value(t)
    decreases |t|
  {
    if m < |t| {
      ValPrefix(t[..|t| - 1], m);
      assert t[..|t| - 1][..m] == t[..m];
    } else {
      TakeAll(t);
    }
  }

  // ------------------------------------------------- what is left of a form

  /** s[k..] is what is left of the address ts from its octet n on, of which d digits were read. */
  ghost predicate OnTrack(s: Bytes, k: nat, n: nat, d: nat, ts: seq<Bytes>) {
    Octets(ts) && n < 4 && k <= |s| && s[k..] == Join(DOT, ts[n..]) && d <= |ts[n]|
  }

  /** The octet n, and the dot and the octets after it. */
  lemma {:induction false} TrackSplit(s: Bytes, k: nat, n: nat, d: nat, ts: seq<Bytes>)
    requires OnTrack(s, k, n, d, ts)
    ensures k + |ts[n]| <= |s| && s[k..k + |ts[n]|] == ts[n]
    ensures k + |ts[n]| == |s| <==> n == 3
    ensures n < 3 ==> s[k + |ts[n]|] == DOT && s[k + |ts[n]| + 1..] == Join(DOT, ts[n + 1..])
  {
    var rest := s[k..];
    assert s == s[..k] + rest;
    if n < 3 {
      assert ts[n..][1..] == ts[n + 1..];
      assert rest == ts[n] + ([DOT] + Join(DOT, ts[n + 1..]));
      assert rest[|ts[n]| + 1..] == Join(DOT, ts[n + 1..]);
      assert s[k + |ts[n]| + 1..] == rest[|ts[n]| + 1..];
    } else {
      assert ts[n..] == [ts[n]];
    }
    assert rest[..|ts[n]|] == ts[n];
  }

  /** A digit belongs to the octet, which therefore is longer; a dot ends it. */
  lemma {:induction false} TrackNext(s: Bytes, k: nat, n: nat, d: nat, ts: seq<Bytes>)
    requires OnTrack(s, k, n, d, ts) && k + d < |s|
    ensures IsDigit(s[k + d]) ==>
              OnTrack(s, k, n, d + 1, ts) && Value(s[k..k + d + 1]) <= 255 && (s[k] == ZERO ==> d == 0)
    ensures s[k + d] == DOT ==> d > 0 && n < 3 && OnTrack(s, k + d + 1, n + 1, 0, ts)
    ensures IsDigit(s[k + d]) || s[k + d] == DOT
  {
    TrackSplit(s, k, n, d, ts);
    var t := ts[n];
    if d < |t| {
      assert s[k + d] == s[k..k + |t|][d] == t[d];
      assert s[k] == s[k..k + |t|][0] == t[0];
      assert s[k..k + d + 1] == t[..d + 1];
      ValPrefix(t, d + 1);
    }
  }

  lemma {:induction false} TrackEnd(s: Bytes, k: nat, n: nat, d: nat, ts: seq<Bytes>)
    requires OnTrack(s, k, n, d, ts) && k + d == |s|
    ensures n == 3 && d > 0
  {
    TrackSplit(s, k, n, d, ts);
  }

  /** An octet ends where a dot or the end of the text comes. */
  lemma {:induction false} OctetEnds(s: Bytes, k: nat, n: nat, ts: seq<Bytes>, us: seq<Bytes>)
    requires OnTrack(s, k, n, 0, ts) && OnTrack(s, k, n, 0, us)
    ensures |ts[n]| >= |us[n]|
  {
    TrackSplit(s, k, n, 0, ts);
    TrackSplit(s, k, n, 0, us);
    var t, u := ts[n], us[n];
    forall i | 0 <= i < |u| ensures s[k + i] == u[i] && IsDigit(s[k + i]) {
      assert s[k..k + |u|][i] == u[i];
    }
  }

  /** Two addresses with the same text from an octet on have the same octets from there on. */
  lemma {:induction false} OctetsAgree(s: Bytes, k: nat, n: nat, ts: seq<Bytes>, us: seq<Bytes>)
    requires OnTrack(s, k, n, 0, ts) && OnTrack(s, k, n, 0, us)
    ensures ts[n..] == us[n..]
    decreases 4 - n
  {
    OctetEnds(s, k, n, ts, us);
    OctetEnds(s, k, n, us, ts);
    TrackSplit(s, k, n, 0, ts);
    TrackSplit(s, k, n, 0, us);
    if n < 3 {
      OctetsAgree(s, k + |ts[n]| + 1, n + 1, ts, us);
    }
    assert ts[n..] == [ts[n]] + ts[n + 1..] && us[n..] == [us[n]] + us[n + 1..];
  }

  /** A text is the text of at most one address. */
  lemma {:induction false} AddressUnique(s: Bytes, ts: seq<Bytes>, us: seq<Bytes>)
    requires IsAddress(s, ts) && IsAddress(s, us)
    ensures ts == us
  {
    assert s[0..] == s && ts[0..] == ts && us[0..] == us;
    OctetsAgree(s, 0, 0, ts, us);
  }

  /** The octets read so far, and the digits of the next one. */
  ghost predicate ReadSoFar(s: Bytes, i: nat, done: seq<Bytes>, d: nat, ip: seq<Byte>, val: nat) {
    && d <= i <= |s| && |done| == |ip| <= 3 && val <= 255
    && (forall j :: 0 <= j < |done| ==> OctetText(done[j]) && Value(done[j]) == ip[j])
    && s[..i - d] == (if done == [] then [] else Join(DOT, done) + [DOT])
    && AllDigits(s[i - d..i]) && Value(s[i - d..i]) == val && (d > 1 ==> s[i - d] != ZERO)
  }

  lemma {:induction false} OctetAdded(before: Bytes, done: seq<Bytes>, t: Bytes)
    requires before == if done == [] then [] else Join(DOT, done) + [DOT]
    ensures before + t == Join(DOT, done + [t])
  {
    if done == [] {
      assert before + t == t && done + [t] == [t];
    } else {
      JoinSnoc(DOT, done, t);
    }
  }

  lemma {:induction false} OctetRead(s: Bytes, i: nat, done: seq<Bytes>, d: nat, ip: seq<Byte>, val: nat)
    requires ReadSoFar(s, i, done, d, ip, val) && d > 0
    ensures OctetText(s[i - d..i]) && s[..i] == Join(DOT, done + [s[i - d..i]])
  {
    OctetAdded(s[..i - d], done, s[i - d..i]);
    assert s[..i] == s[..i - d] + s[i - d..i];
  }

  lemma {:induction false} DigitRead(s: Bytes, i: nat, done: seq<Bytes>, d: nat, ip: seq<Byte>, val: nat)
    requires ReadSoFar(s, i, done, d, ip, val) && i < |s| && IsDigit(s[i])
    ensures AllDigits(s[i - d..i + 1]) && Value(s[i - d..i + 1]) == val * 10 + (s[i] - ZERO)
    ensures d == 1 ==> (val == 0 <==> s[i - d] == ZERO)
    ensures !(d == 1 && val == 0) && val * 10 + (s[i] - ZERO) <= 255 ==>
              ReadSoFar(s, i + 1, done, d + 1, ip, val * 10 + (s[i] - ZERO))
  {
    assert s[i - d..i + 1][..d] == s[i - d..i];
    if d == 1 {
      var t := s[i - d..i];
      assert t == [s[i - d]] && t[..0] == [];
      assert Value(t) == 10 * Value(t[..0]) + (t[0] - ZERO);
    }
  }

  ghost predicate NoAddress(s: Bytes) {
    forall us :: !IsAddress(s, us)
  }

  ghost predicate AllOnTrack(s: Bytes, k: nat, n: nat, d: nat) {
    forall us :: IsAddress(s, us) ==> OnTrack(s, k, n, d, us)
  }

  lemma {:induction false} AllTrackNext(s: Bytes, i: nat, n: nat, d: nat)
    requires d <= i < |s| && AllOnTrack(s, i - d, n, d)
    ensures IsDigit(s[i]) ==> AllOnTrack(s, i - d, n, d + 1)
    ensures IsDigit(s[i]) && d > 0 && s[i - d] == ZERO ==> NoAddress(s)
    ensures IsDigit(s[i]) && AllDigits(s[i - d..i + 1]) && Value(s[i - d..i + 1]) > 255 ==> NoAddress(s)
    ensures s[i] == DOT ==> AllOnTrack(s, i + 1, n + 1, 0) && (d == 0 || n >= 3 ==> NoAddress(s))
    ensures !IsDigit(s[i]) && s[i] != DOT ==> NoAddress(s)
  {
    var k := i - d;
    assert k + d == i && k + d + 1 == i + 1;
    forall us | IsAddress(s, us)
      ensures IsDigit(s[i]) ==> OnTrack(s, k, n, d + 1, us) && Value(s[k..i + 1]) <= 255 && (s[k] == ZERO ==> d == 0)
      ensures s[i] == DOT ==> d > 0 && n < 3 && OnTrack(s, i + 1, n + 1, 0, us)
      ensures IsDigit(s[i]) || s[i] == DOT
    {
      TrackNext(s, k, n, d, us);
    }
  }

  lemma {:induction false} AllTrackStart(s: Bytes)
    ensures AllOnTrack(s, 0, 0, 0)
  {
    forall us | IsAddress(s, us) ensures OnTrack(s, 0, 0, 0, us) {
      assert us[0..] == us && s[0..] == s;
    }
  }

  lemma {:induction false} AllTrackEnd(s: Bytes, n: nat, d: nat)
    requires d <= |s| && AllOnTrack(s, |s| - d, n, d)
    ensures n != 3 || d == 0 ==> NoAddress(s)
  {
    forall us | IsAddress(s, us) ensures n == 3 && d > 0 {
      TrackEnd(s, |s| - d, n, d, us);
    }
  }

  lemma {:induction false} DotRead(s: Bytes, i: nat, done: seq<Bytes>, d: nat, ip: seq<Byte>, val: nat)
    requires ReadSoFar(s, i, done, d, ip, val) && i < |s| && s[i] == DOT && d > 0 && |ip| < 3
    ensures ReadSoFar(s, i + 1, done + [s[i - d..i]], 0, ip + [val], 0)
  {
    OctetRead(s, i, done, d, ip, val);
    assert s[..i + 1] == s[..i] + [DOT];
  }

  lemma {:induction false} AddressRead(s: Bytes, done: seq<Bytes>, d: nat, ip: seq<Byte>, val: nat)
    requires ReadSoFar(s, |s|, done, d, ip, val) && d > 0 && |ip| == 3
    ensures IsAddress(s, done + [s[|s| - d..|s|]]) && Denoted(done + [s[|s| - d..|s|]]) == ip + [val]
  {
    OctetRead(s, |s|, done, d, ip, val);
    TakeAll(s);
  }

  /** The octets read so far are those of every address that s is. */
  ghost predicate Reading(s: Bytes, i: nat, done: seq<Bytes>, d: nat, ip: seq<Byte>, val: nat) {
    ReadSoFar(s, i, done, d, ip, val) && AllOnTrack(s, i - d, |done|, d)
  }

  lemma {:induction false} DigitStep(s: Bytes, i: nat, done: seq<Bytes>, d: nat, ip: seq<Byte>, val: nat)
    requires Reading(s, i, done, d, ip, val) && i < |s| && IsDigit(s[i])
    ensures (d == 1 && val == 0) || val * 10 + (s[i] - ZERO) > 255 ==> NoAddress(s)
    ensures !(d == 1 && val == 0) && val * 10 + (s[i] - ZERO) <= 255 ==>
              Reading(s, i + 1, done, d + 1, ip, val * 10 + (s[i] - ZERO))
  {
    AllTrackNext(s, i, |done|, d);
    DigitRead(s, i, done, d, ip, val);
  }

  lemma {:induction false} DotStep(s: Bytes, i: nat, done: seq<Bytes>, d: nat, ip: seq<Byte>, val: nat)
    requires Reading(s, i, done, d, ip, val) && i < |s| && s[i] == DOT && d > 0 && |ip| < 3
    ensures Reading(s, i + 1, done + [s[i - d..i]], 0, ip + [val], 0)
  {
    AllTrackNext(s, i, |done|, d);
    DotRead(s, i, done, d, ip, val);
  }

  lemma {:induction false} OtherStep(s: Bytes, i: nat, done: seq<Bytes>, d: nat, ip: seq<Byte>, val: nat)
    requires Reading(s, i, done, d, ip, val) && i < |s| && !IsDigit(s[i]) && !(s[i] == DOT && d > 0 && |ip| < 3)
    ensures NoAddress(s)
  {
    AllTrackNext(s, i, |done|, d);
  }

  /** A digit of an octet. */
  method ReadDigit(s: Bytes, i: nat, ghost ip: seq<Byte>, val: nat, digits: nat, ghost ts: seq<Bytes>)
    returns (ok: bool, val': nat)
    requires Reading(s, i, ts, digits, ip, val) && i < |s| && IsDigit(s[i])
    ensures if ok then Reading(s, i + 1, ts, digits + 1, ip, val') else NoAddress(s)
  {
    DigitStep(s, i, ts, digits, ip, val);
    if digits == 1 && val == 0 {
      return false, val;
    }
    val' := val * 10 + (s[i] - ZERO);
    ok := val' <= 255;
  }

  /** The body of the loop of parseIPv4. */
  method ReadByte(s: Bytes, i: nat, ip: seq<Byte>, val: nat, digits: nat, ghost ts: seq<Bytes>)
    returns (ok: bool, ip': seq<Byte>, val': nat, digits': nat, ghost ts': seq<Bytes>)
    requires Reading(s, i, ts, digits, ip, val) && i < |s|
    ensures if ok then Reading(s, i + 1, ts', digits', ip', val') else NoAddress(s)
  {
    if IsDigit(s[i]) {
      ok, val' := ReadDigit(s, i, ip, val, digits, ts);
      return ok, ip, val', digits + 1, ts;
    } else if s[i] == DOT && digits > 0 && |ip| < 3 {
      DotStep(s, i, ts, digits, ip, val);
      return true, ip + [val], 0, 0, ts + [s[i - digits..i]];
    }
    OtherStep(s, i, ts, digits, ip, val);
    return false, ip, val, digits, ts;
  }

  lemma {:induction false} OnlyAddress(s: Bytes, ts: seq<Bytes>)
    requires IsAddress(s, ts)
    ensures forall us :: IsAddress(s, us) ==> us == ts
  {
    forall us | IsAddress(s, us) ensures us == ts {
      AddressUnique(s, us, ts);
    }
  }

  /** The loop of parseIPv4. */
  method ReadBytes(s: Bytes) returns (ok: bool, ip: seq<Byte>, val: nat, digits: nat, ghost ts: seq<Bytes>)
    ensures if ok then Reading(s, |s|, ts, digits, ip, val) else NoAddress(s)
  {
    ok, ip, val, digits, ts := true, [], 0, 0, [];
    AllTrackStart(s);
    for i := 0 to |s|
      invariant Reading(s, i, ts, digits, ip, val)
    {
      ok, ip, val, digits, ts := ReadByte(s, i, ip, val, digits, ts);
      if !ok {
        return;
      }
    }
    ok := true;
  }

  /** parseIPv4 accepts exactly the addresses, and undoes printing them. ts is how s reads as one. */
  method Parse(s: Bytes) returns (r: Option<seq<Byte>>, ghost ts: seq<Bytes>)
    ensures r.Some? ==> IsAddress(s, ts) && r.value == Denoted(ts)
    ensures r.None? ==> NoAddress(s)
    ensures forall us :: IsAddress(s, us) ==> r == Some(Denoted(us))
  {
    var ok, ip, val, digits;
    ok, ip, val, digits, ts := ReadBytes(s);
    if !ok {
      return None, ts;
    }
    AllTrackEnd(s, |ts|, digits);
    if |ip| != 3 || digits == 0 {
      return None, ts;
    }
    AddressRead(s, ts, digits, ip, val);
    ts := ts + [s[|s| - digits..|s|]];
    OnlyAddress(s, ts);
    return Some(ip + [val]), ts;
  }
}
