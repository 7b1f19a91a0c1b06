/**
 * JSON events (sections 2 to 5 of RFC 8259) as trees and as sequences of
 * tokens, with a reference parser. Numbers, true and false are scalars with
 * the text they match as; strings are decoded.
 */
module JsonGrammar {
  import opened ByteStrings

  datatype Token =
    | OpenBrace | CloseBrace | OpenBracket | CloseBracket | Comma | Colon
    | Text(s: Bytes) | Word(s: Bytes) | NullWord

  datatype Json = JNull | JWord(s: Bytes) | JText(s: Bytes) | JArray(items: seq<Json>) | JObject(members: seq<Member>)

  datatype Member = Member(key: Bytes, value: Json)

  const MAX_JSON_DEPTH: nat := 10000

  // ---------------------------------------------------------------- printing

  function Print(j: Json): (ts: seq<Token>)
    ensures ts != []
    decreases j, 1
  {
    match j
    case JNull => [NullWord]
    case JWord(s) => [Word(s)]
    case JText(s) => [Text(s)]
    case JArray(items) => if items == [] then [OpenBracket, CloseBracket] else [OpenBracket] + PrintItems(items)
    case JObject(members) => if members == [] then [OpenBrace, CloseBrace] else [OpenBrace] + PrintMembers(members)
  }

  /** The rest of an array, after its bracket or a comma. */
  function PrintItems(items: seq<Json>): seq<Token>
    requires items != []
    decreases items, 0
  {
    Print(items[0]) + if |items| == 1 then [CloseBracket] else [Comma] + PrintItems(items[1..])
  }

  function PrintMembers(members: seq<Member>): seq<Token>
    requires members != []
    decreases members, 0
  {
    [Text(members[0].key), Colon] + Print(members[0].value) +
    if |members| == 1 then [CloseBrace] else [Comma] + PrintMembers(members[1..])
  }

  /** The nesting of objects and arrays. */
  function Depth(j: Json): nat
    decreases j, 1
  {
    match j
    case JArray(items) => 1 + DepthOfItems(items)
    case JObject(members) => 1 + DepthOfMembers(members)
    case _ => 0
  }

  function Max(a: nat, b: nat): nat {
    if a < b then b else a
  }

  function DepthOfItems(items: seq<Json>): nat
    decreases items, 0
  {
    if items == [] then 0 else Max(Depth(items[0]), DepthOfItems(items[1..]))
  }

  function DepthOfMembers(members: seq<Member>): nat
    decreases members, 0
  {
    if members == [] then 0 else Max(Depth(members[0].value), DepthOfMembers(members[1..]))
  }

  // --------------------------------------------------------- reference parser

  datatype Parsed<T> = Fails | Parsed(value: T, rest: seq<Token>)

  /** Parses one value inside depth objects and arrays. */
  function ParseValue(ts: seq<Token>, depth: nat): (r: Parsed<Json>)
    ensures r.Parsed? ==> |r.rest| < |ts|
    decreases |ts|, 1
  {
    if ts == [] then Fails
    else
      match ts[0]
      case NullWord => Parsed(JNull, ts[1..])
      case Word(s) => Parsed(JWord(s), ts[1..])
      case Text(s) => Parsed(JText(s), ts[1..])
      case OpenBracket => if depth >= MAX_JSON_DEPTH then Fails else AsArray(ParseArray(ts[1..], depth + 1))
      case OpenBrace => if depth >= MAX_JSON_DEPTH then Fails else AsObject(ParseObject(ts[1..], depth + 1))
      case _ => Fails
  }

  function AsArray(r: Parsed<seq<Json>>): Parsed<Json> {
    match r
    case Fails => Fails
    case Parsed(items, rest) => Parsed(JArray(items), rest)
  }

  function AsObject(r: Parsed<seq<Member>>): Parsed<Json> {
    match r
    case Fails => Fails
    case Parsed(members, rest) => Parsed(JObject(members), rest)
  }

  function ParseArray(ts: seq<Token>, depth: nat): (r: Parsed<seq<Json>>)
    ensures r.Parsed? ==> |r.rest| < |ts|
    decreases |ts|, 3
  {
    if ts != [] && ts[0] == CloseBracket then Parsed([], ts[1..]) else ParseItems(ts, depth)
  }

  function ParseItems(ts: seq<Token>, depth: nat): (r: Parsed<seq<Json>>)
    ensures r.Parsed? ==> |r.rest| < |ts|
    decreases |ts|, 2
  {
    match ParseValue(ts, depth)
    case Fails => Fails
    case Parsed(j, rest) =>
      if rest == [] then Fails
      else if rest[0] == CloseBracket then Parsed([j], rest[1..])
      else if rest[0] != Comma then Fails
      else
        match ParseItems(rest[1..], depth)
        case Fails => Fails
        case Parsed(items, end) => Parsed([j] + items, end)
  }

  function ParseObject(ts: seq<Token>, depth: nat): (r: Parsed<seq<Member>>)
    ensures r.Parsed? ==> |r.rest| < |ts|
    decreases |ts|, 3
  {
    if ts != [] && ts[0] == CloseBrace then Parsed([], ts[1..]) else ParseMembers(ts, depth)
  }

  function ParseMembers(ts: seq<Token>, depth: nat): (r: Parsed<seq<Member>>)
    ensures r.Parsed? ==> |r.rest| < |ts|
    decreases |ts|, 2
  {
    if |ts| < 2 || !ts[0].Text? || ts[1] != Colon then Fails
    else
      match ParseValue(ts[2..], depth)
      case Fails => Fails
      case Parsed(j, rest) =>
        var m := Member(ts[0].s, j);
        if rest == [] then Fails
        else if rest[0] == CloseBrace then Parsed([m], rest[1..])
        else if rest[0] != Comma then Fails
        else
          match ParseMembers(rest[1..], depth)
          case Fails => Fails
          case Parsed(members, end) => Parsed([m] + members, end)
  }

  // ------------------------------------------------ it parses what is printed

  lemma {:induction false} ParsePrinted(j: Json, rest: seq<Token>, depth: nat)
    requires depth + Depth(j) <= MAX_JSON_DEPTH
    ensures ParseValue(Print(j) + rest, depth) == Parsed(j, rest)
    decreases j, 1
  {
    var ts := Print(j) + rest;
    match j
    case JArray(items) =>
      if items == [] {
        assert ts[1..] == [CloseBracket] + rest;
      } else {
        assert ts[1..] == PrintItems(items) + rest;
        ItemsStart(items, rest);
        ParsePrintedItems(items, rest, depth + 1);
      }
    case JObject(members) =>
      if members == [] {
        assert ts[1..] == [CloseBrace] + rest;
      } else {
        assert ts[1..] == PrintMembers(members) + rest;
        ParsePrintedMembers(members, rest, depth + 1);
      }
    case _ =>
      assert ts[1..] == rest;
  }

  lemma {:induction false} ItemsStart(items: seq<Json>, rest: seq<Token>)
    requires items != []
    ensures (PrintItems(items) + rest)[0] == Print(items[0])[0] && Print(items[0])[0] != CloseBracket
  {
  }

  lemma {:induction false} ParsePrintedItems(items: seq<Json>, rest: seq<Token>, depth: nat)
    requires items != [] && depth + DepthOfItems(items) <= MAX_JSON_DEPTH
    ensures ParseItems(PrintItems(items) + rest, depth) == Parsed(items, rest)
    decreases items, 0
  {
    var tail := (if |items| == 1 then [CloseBracket] else [Comma] + PrintItems(items[1..])) + rest;
    assert PrintItems(items) + rest == Print(items[0]) + tail;
    ParsePrinted(items[0], tail, depth);
    if |items| == 1 {
      assert tail[1..] == rest && items == [items[0]];
    } else {
      assert tail[1..] == PrintItems(items[1..]) + rest;
      ParsePrintedItems(items[1..], rest, depth);
      assert items == [items[0]] + items[1..];
    }
  }

  lemma {:induction false} ParsePrintedMembers(members: seq<Member>, rest: seq<Token>, depth: nat)
    requires members != [] && depth + DepthOfMembers(members) <= MAX_JSON_DEPTH
    ensures ParseMembers(PrintMembers(members) + rest, depth) == Parsed(members, rest)
    decreases members, 0
  {
    var m := members[0];
    var after := if |members| == 1 then [CloseBrace] else [Comma] + PrintMembers(members[1..]);
    MemberStart(m, after, rest);
    ParsePrinted(m.value, after + rest, depth);
    if |members| == 1 {
      assert (after + rest)[1..] == rest && members == [m];
    } else {
      assert (after + rest)[1..] == PrintMembers(members[1..]) + rest;
      ParsePrintedMembers(members[1..], rest, depth);
      assert members == [m] + members[1..];
    }
    MembersUnfold(PrintMembers(members) + rest, depth, m, after + rest);
  }

  lemma {:induction false} MembersUnfold(ts: seq<Token>, depth: nat, m: Member, tail: seq<Token>)
    requires |ts| >= 2 && ts[0] == Text(m.key) && ts[1] == Colon && ParseValue(ts[2..], depth) == Parsed(m.value, tail)
    requires tail != [] && tail[0] in {CloseBrace, Comma}
    ensures tail[0] == CloseBrace ==> ParseMembers(ts, depth) == Parsed([m], tail[1..])
    ensures tail[0] == Comma && ParseMembers(tail[1..], depth).Parsed? ==>
              ParseMembers(ts, depth) == Parsed([m] + ParseMembers(tail[1..], depth).value,
                                                ParseMembers(tail[1..], depth).rest)
  {
  }

  lemma {:induction false} MemberStart(m: Member, after: seq<Token>, rest: seq<Token>)
    ensures var ts := [Text(m.key), Colon] + Print(m.value) + after + rest;
            |ts| >= 2 && ts[0] == Text(m.key) && ts[1] == Colon && ts[2..] == Print(m.value) + (after + rest)
  {
  }

  // ------------------------------------------------- it parses nothing else

  lemma {:induction false} ItemPrinted(ts: seq<Token>, j: Json, rest: seq<Token>, after: seq<Token>, end: seq<Token>)
    requires ts == Print(j) + rest && rest == after + end
    ensures ts == Print(j) + after + end
  {
  }

  lemma {:induction false} MemberPrinted(ts: seq<Token>, j: Json, rest: seq<Token>, after: seq<Token>, end: seq<Token>)
    requires |ts| >= 2 && ts[0].Text? && ts[1] == Colon && ts[2..] == Print(j) + rest && rest == after + end
    ensures ts == [Text(ts[0].s), Colon] + Print(j) + after + end
  {
    assert ts == [Text(ts[0].s), Colon] + ts[2..];
  }

  lemma {:induction false} PrintParsed(ts: seq<Token>, depth: nat)
    requires ParseValue(ts, depth).Parsed? && depth <= MAX_JSON_DEPTH
    ensures var r := ParseValue(ts, depth);
            ts == Print(r.value) + r.rest && depth + Depth(r.value) <= MAX_JSON_DEPTH
    decreases |ts|, 1
  {
    assert ts == [ts[0]] + ts[1..];
    match ts[0]
    case OpenBracket =>
      PrintParsedArray(ts[1..], depth + 1);
    case OpenBrace =>
      PrintParsedObject(ts[1..], depth + 1);
    case _ =>
  }

  lemma {:induction false} PrintParsedArray(ts: seq<Token>, depth: nat)
    requires ParseArray(ts, depth).Parsed? && depth <= MAX_JSON_DEPTH
    ensures var r := ParseArray(ts, depth);
            [OpenBracket] + ts == Print(JArray(r.value)) + r.rest && depth + DepthOfItems(r.value) <= MAX_JSON_DEPTH
    decreases |ts|, 3
  {
    if ts != [] && ts[0] == CloseBracket {
      assert ts == [CloseBracket] + ts[1..];
    } else {
      PrintParsedItems(ts, depth);
    }
  }

  lemma {:induction false} PrintParsedObject(ts: seq<Token>, depth: nat)
    requires ParseObject(ts, depth).Parsed? && depth <= MAX_JSON_DEPTH
    ensures var r := ParseObject(ts, depth);
            [OpenBrace] + ts == Print(JObject(r.value)) + r.rest && depth + DepthOfMembers(r.value) <= MAX_JSON_DEPTH
    decreases |ts|, 3
  {
    if ts != [] && ts[0] == CloseBrace {
      assert ts == [CloseBrace] + ts[1..];
    } else {
      PrintParsedMembers(ts, depth);
    }
  }

  lemma {:induction false} PrintParsedItems(ts: seq<Token>, depth: nat)
    requires ParseItems(ts, depth).Parsed? && depth <= MAX_JSON_DEPTH
    ensures var r := ParseItems(ts, depth);
            r.value != [] && ts == PrintItems(r.value) + r.rest && depth + DepthOfItems(r.value) <= MAX_JSON_DEPTH
    decreases |ts|, 2
  {
    PrintParsed(ts, depth);
    var j, rest := ParseValue(ts, depth).value, ParseValue(ts, depth).rest;
    assert rest == [rest[0]] + rest[1..];
    if rest[0] == CloseBracket {
      ItemPrinted(ts, j, rest, [CloseBracket], rest[1..]);
      assert [j][1..] == [];
    } else {
      PrintParsedItems(rest[1..], depth);
      var items, end := ParseItems(rest[1..], depth).value, ParseItems(rest[1..], depth).rest;
      ItemPrinted(ts, j, rest, [Comma] + PrintItems(items), end);
      assert ([j] + items)[1..] == items;
    }
  }

  lemma {:induction false} PrintParsedMembers(ts: seq<Token>, depth: nat)
    requires ParseMembers(ts, depth).Parsed? && depth <= MAX_JSON_DEPTH
    ensures var r := ParseMembers(ts, depth);
            r.value != [] && ts == PrintMembers(r.value) + r.rest && depth + DepthOfMembers(r.value) <= MAX_JSON_DEPTH
    decreases |ts|, 2
  {
    PrintParsed(ts[2..], depth);
    var j, rest := ParseValue(ts[2..], depth).value, ParseValue(ts[2..], depth).rest;
    var m := Member(ts[0].s, j);
    assert rest == [rest[0]] + rest[1..];
    if rest[0] == CloseBrace {
      MemberPrinted(ts, j, rest, [CloseBrace], rest[1..]);
      assert [m][1..] == [];
    } else {
      PrintParsedMembers(rest[1..], depth);
      var members, end := ParseMembers(rest[1..], depth).value, ParseMembers(rest[1..], depth).rest;
      MemberPrinted(ts, j, rest, [Comma] + PrintMembers(members), end);
      assert ([m] + members)[1..] == members;
    }
  }
}
