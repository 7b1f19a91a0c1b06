/**
 * Rules and events as the user writes them, and what a rule means: the
 * naive evaluation of explain.go, condition by condition.
 */
module Rules {
  import opened ByteStrings
  import opened Numbers
  import Glob

  datatype PatternType =
    | Equals | Prefix | Suffix | Wildcard
    | AnythingBut | AnyOf | AllOf | Unknown
    | LessThan | LessThanOrEqual | GreaterThan | GreaterThanOrEqual
    | Between | Exists | NumericEquals | CIDR

  /** listed tells an empty list of sub-patterns from none at all. */
  datatype Pattern = Pattern(typ: PatternType, value: Bytes, sub: seq<Pattern>, listed: bool)

  /** A condition with alternatives has neither path nor pattern. */
  datatype Condition = Condition(path: Bytes, pattern: Pattern, or: Alternatives)

  datatype Alternatives = NoOr | Or(sets: seq<ConditionSet>)

  datatype ConditionSet = ConditionSet(conds: seq<Condition>)

  datatype Property = Property(path: Bytes, values: seq<Bytes>)

  type Event = seq<Property>

  /** A masked IP prefix: the first bits of addr, whose other bits are zero. */
  datatype IPPrefix = IPPrefix(addr: seq<bool>, bits: nat) {
    predicate Masked() {
      |addr| in {32, 128} && bits <= |addr| && forall i :: bits <= i < |addr| ==> !addr[i]
    }

    predicate Contains(a: seq<bool>) {
      |a| == |addr| && bits <= |a| && a[..bits] == addr[..bits]
    }
  }

  /**
   * The functions of the Go library the rules depend on: case folding, the
   * conversion of decimal text to float64, and the text form of prefixes.
   */
  datatype World = World(
    fold: Bytes -> Bytes,
    parseNumber: Bytes -> Option<Num>,
    intervalKey: Interval -> Bytes,
    parseInterval: Bytes -> Interval,
    parsePrefix: Bytes -> Option<IPPrefix>,
    prefixText: IPPrefix -> Bytes,
    parseIP: Bytes -> Option<seq<bool>>)
  {
    /** A number that is infinite or some text denotes; there are as many as float64 values, not as many as reals. */
    ghost predicate IsNumber(x: Num) {
      x.Finite? ==> exists s :: parseNumber(s) == Some(x)
    }

    ghost predicate IsInterval(iv: Interval) {
      IsNumber(iv.lo) && IsNumber(iv.hi)
    }

    /** The text forms the compiled rules keep can be read back. */
    ghost predicate Lawful() {
      && (forall iv :: IsInterval(iv) ==> parseInterval(intervalKey(iv)) == iv)
      && (forall s :: parsePrefix(s).Some? ==>
            parsePrefix(s).value.Masked() && parsePrefix(prefixText(parsePrefix(s).value)) == parsePrefix(s))
      && (forall s :: parseIP(s).Some? ==> |parseIP(s).value| in {32, 128})
    }
  }

  predicate IsComparison(t: PatternType) {
    t in {LessThan, LessThanOrEqual, GreaterThan, GreaterThanOrEqual}
  }

  predicate IsNumeric(t: PatternType) {
    IsComparison(t) || t == NumericEquals
  }

  /** The numbers the comparison t with bound v matches. */
  function BoundInterval(t: PatternType, v: Num): Interval {
    match t
    case LessThan => Interval(NegInf, v, false, true)
    case LessThanOrEqual => Interval(NegInf, v, false, false)
    case GreaterThan => Interval(v, PosInf, true, false)
    case NumericEquals => Interval(v, v, false, false)
    case _ => Interval(v, PosInf, false, false)
  }

  /** The bound of a numeric comparison, which must be a finite number. */
  function NumericBound(w: World, p: Pattern): Option<Num> {
    if |p.sub| > 0 then None
    else
      match w.parseNumber(p.value)
      case Some(Finite(r)) => Some(Finite(r))
      case _ => None
  }

  function BetweenBounds(w: World, sub: seq<Pattern>, iv: Interval, lower: bool, upper: bool): Option<Interval> {
    if sub == [] then
      if lower && upper then Some(iv) else None
    else
      var s := sub[0];
      if !IsComparison(s.typ) then None
      else
        match NumericBound(w, s)
        case None => None
        case Some(v) =>
          var b := BoundInterval(s.typ, v);
          if s.typ == GreaterThan || s.typ == GreaterThanOrEqual then
            if lower then None
            else BetweenBounds(w, sub[1..], iv.(lo := b.lo, loOpen := b.loOpen), true, upper)
          else
            if upper then None
            else BetweenBounds(w, sub[1..], iv.(hi := b.hi, hiOpen := b.hiOpen), lower, true)
  }

  /** The numbers a between pattern matches, if it is valid. */
  function BetweenInterval(w: World, p: Pattern): Option<Interval> {
    if p.value != [] then None
    else
      match BetweenBounds(w, p.sub, Interval(NegInf, PosInf, false, false), false, false)
      case None => None
      case Some(iv) =>
        if Less(iv.hi, iv.lo) || (iv.lo == iv.hi && (iv.loOpen || iv.hiOpen)) then None else Some(iv)
  }

  const TRUE: Bytes := ['t' as int, 'r' as int, 'u' as int, 'e' as int]
  const FALSE: Bytes := ['f' as int, 'a' as int, 'l' as int, 's' as int, 'e' as int]

  /** Whether the number written in v, if any, lies in iv. */
  predicate NumberIn(w: World, v: Bytes, iv: Option<Interval>) {
    var x := w.parseNumber(v);
    x.Some? && iv.Some? && iv.value.Contains(x.value)
  }

  /** Whether the folded value v matches p on its own. */
  ghost predicate ValueMatches(w: World, p: Pattern, v: Bytes)
    decreases p
  {
    match p.typ
    case Equals => v == w.fold(p.value)
    case Prefix => w.fold(p.value) <= v
    case Suffix => HasSuffix(v, w.fold(p.value))
    case Wildcard =>
      var ts := Glob.Tokens(w.fold(p.value));
      ts.Some? && Glob.Accepts(ts.value, v)
    case Between => NumberIn(w, v, BetweenInterval(w, p))
    case CIDR =>
      var prefix, a := w.parsePrefix(p.value), w.parseIP(v);
      prefix.Some? && a.Some? && prefix.value.Contains(a.value)
    case Exists => p.value == TRUE
    case AnyOf => exists i :: 0 <= i < |p.sub| && ValueMatches(w, p.sub[i], v)
    case AllOf => forall i :: 0 <= i < |p.sub| ==> ValueMatches(w, p.sub[i], v)
    case AnythingBut => !exists i :: 0 <= i < |p.sub| && ValueMatches(w, p.sub[i], v)
    case Unknown => false
    case _ =>
      match w.parseNumber(p.value)
      case None => false
      case Some(b) => NumberIn(w, v, Some(BoundInterval(p.typ, b)))
  }

  /** explainPattern: whether the folded values vs of a property match p. */
  ghost predicate PatternHolds(w: World, p: Pattern, vs: seq<Bytes>)
    decreases p
  {
    match p.typ
    case AnyOf => exists i :: 0 <= i < |p.sub| && PatternHolds(w, p.sub[i], vs)
    case AllOf => forall i :: 0 <= i < |p.sub| ==> PatternHolds(w, p.sub[i], vs)
    case AnythingBut => !exists i :: 0 <= i < |p.sub| && PatternHolds(w, p.sub[i], vs)
    case Exists => (|vs| > 0) == (p.value == TRUE)
    case _ => exists i :: 0 <= i < |vs| && ValueMatches(w, p, vs[i])
  }

  /** The part of path before its final ".*", for a wildcard path. */
  function WildBase(path: Bytes): Option<Bytes> {
    if |path| > 2 && HasSuffix(path, [DOT, STAR]) then Some(path[..|path| - 2]) else None
  }

  /** Whether a condition on path refers to the property at prop. */
  predicate RefersTo(path: Bytes, prop: Bytes) {
    prop == path ||
    var base := WildBase(path);
    base.Some? && |prop| > |base.value| && prop[|base.value|] == DOT && base.value <= prop
  }

  /** valuesAt: the values of event at path, or below it for a wildcard path. */
  function ValuesAt(event: Event, path: Bytes): seq<Bytes> {
    if event == [] then []
    else (if RefersTo(path, event[0].path) then event[0].values else []) + ValuesAt(event[1..], path)
  }

  function FoldAll(w: World, vs: seq<Bytes>): (r: seq<Bytes>)
    ensures |r| == |vs|
  {
    seq(|vs|, i requires 0 <= i < |vs| => w.fold(vs[i]))
  }

  /** The folded values a condition on path looks at. */
  function FoldedAt(w: World, event: Event, path: Bytes): seq<Bytes> {
    FoldAll(w, ValuesAt(event, path))
  }

  /** A condition without alternatives; only {"exists": false} matches an absent property. */
  ghost predicate PlainHolds(w: World, path: Bytes, p: Pattern, event: Event) {
    var vs := FoldedAt(w, event, path);
    (|vs| > 0 || p.typ == Exists) && PatternHolds(w, p, vs)
  }

  ghost predicate ConditionHolds(w: World, c: Condition, event: Event)
    decreases c
  {
    match c.or
    case NoOr => PlainHolds(w, c.path, c.pattern, event)
    case Or(sets) => exists j :: 0 <= j < |sets| && RuleHolds(w, sets[j], event)
  }

  /** explainSet: an event matches a rule if it matches every condition. */
  ghost predicate RuleHolds(w: World, rule: ConditionSet, event: Event)
    decreases rule
  {
    forall i :: 0 <= i < |rule.conds| ==> ConditionHolds(w, rule.conds[i], event)
  }
}
