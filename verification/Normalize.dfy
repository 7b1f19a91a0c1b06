/**
 * The rule compiler of normalize.go: patterns become canonical expressions,
 * and a rule becomes one condition set for every combination of its
 * alternatives, with at most one condition per path.
 */
module Normalize {
  import opened ByteStrings
  import opened Sorting
  import opened Expressions
  import opened Semantics
  import Rules
  import Glob

  const MAX_CONDITION_SETS: nat := 1024
  const MAX_OR_DEPTH: nat := 32

  // ------------------------------------------------------------ patterns

  /** plainWildcardLeaf: the cheapest leaf for a pattern without escapes. */
  function PlainWildcardLeaf(v: Bytes): Expr {
    if v == [STAR] then Leaf(LeafExists, [])
    else
      var lead := |v| > 0 && v[0] == STAR;
      var cut := if lead then v[1..] else v;
      var trail := |cut| > 0 && cut[|cut| - 1] == STAR;
      var core := if trail then cut[..|cut| - 1] else cut;
      if STAR in core then Leaf(LeafGlob, v)
      else if !lead && !trail then Leaf(LeafEquals, core)
      else if !lead then Leaf(LeafPrefix, core)
      else if !trail then Leaf(LeafSuffix, core)
      else Leaf(LeafGlob, v)
  }

  /** wildcardLeaf: the cheapest leaf for a pattern with escapes and these parts. */
  function WildcardLeaf(v: Bytes, parts: seq<Bytes>): Expr
    requires |parts| > 0
  {
    var first, last := parts[0], parts[|parts| - 1];
    if |parts| == 1 then Leaf(LeafEquals, first)
    else if |parts| > 2 then Leaf(LeafGlob, v)
    else if first == [] then Leaf(LeafSuffix, last)
    else if last == [] then Leaf(LeafPrefix, first)
    else Leaf(LeafGlob, v)
  }

  function NormalizeWildcard(v: Bytes): Option<Expr> {
    if BACKSLASH !in v then
      if Glob.Index(v, [STAR, STAR], 0) >= 0 then None else Some(PlainWildcardLeaf(v))
    else
      match Glob.Split(v)
      case None => None
      case Some(parts) => Some(WildcardLeaf(v, parts))
  }

  function NormalizePattern(w: World, p: Rules.Pattern): Option<Expr>
    decreases p, 1
  {
    match p.typ
    case Equals | Prefix | Suffix | Wildcard =>
      if p.value == [] || |p.sub| > 0 then None
      else
        var v := w.fold(p.value);
        (match p.typ
         case Equals => Some(Leaf(LeafEquals, v))
         case Prefix => Some(Leaf(LeafPrefix, v))
         case Suffix => Some(Leaf(LeafSuffix, v))
         case _ => NormalizeWildcard(v))
    case Between =>
      (match Rules.BetweenInterval(w, p)
       case None => None
       case Some(iv) => Some(Leaf(LeafNumber, w.intervalKey(iv))))
    case CIDR =>
      if |p.sub| > 0 then None
      else
        (match w.parsePrefix(p.value)
         case None => None
         case Some(prefix) => Some(Leaf(LeafCIDR, w.prefixText(prefix))))
    case Exists =>
      if |p.sub| > 0 then None
      else if p.value == Rules.TRUE then Some(Leaf(LeafExists, []))
      else if p.value == Rules.FALSE then Some(Absent)
      else None
    case AnyOf | AllOf | AnythingBut =>
      if p.value != [] || |p.sub| == 0 then None
      else
        (match NormalizeSubs(w, p.sub)
         case None => None
         case Some(es) =>
           Some(match p.typ
                case AnyOf => Combine(AnyOf, es)
                case AllOf => Combine(AllOf, es)
                case _ => Negate(Combine(AnyOf, es))))
    case Unknown => None
    case _ =>
      match Rules.NumericBound(w, p)
      case None => None
      case Some(v) => Some(Leaf(LeafNumber, w.intervalKey(Rules.BoundInterval(p.typ, v))))
  }

  /** The operands of a composed pattern, none of which may be {"exists": false}. */
  function NormalizeSubs(w: World, ps: seq<Rules.Pattern>): (r: Option<seq<Expr>>)
    ensures r.Some? ==> |r.value| == |ps|
    decreases ps, 0
  {
    if ps == [] then Some([])
    else
      match NormalizePattern(w, ps[0])
      case None => None
      case Some(e) =>
        if e.Absent? then None
        else
          match NormalizeSubs(w, ps[1..])
          case None => None
          case Some(es) => Some([e] + es)
  }

  // ----------------------------------------------------- condition sets

  function NormalizeCondition(w: World, c: Rules.Condition): Option<NCond> {
    if c.path == [] then None
    else
      match NormalizePattern(w, c.pattern)
      case None => None
      case Some(e) => Some(NCond(c.path, e))
  }

  function NormalizeEach(w: World, cs: seq<Rules.Condition>): (r: Option<seq<NCond>>)
    ensures r.Some? ==> |r.value| == |cs|
  {
    if cs == [] then Some([])
    else
      match NormalizeCondition(w, cs[0])
      case None => None
      case Some(c) =>
        match NormalizeEach(w, cs[1..])
        case None => None
        case Some(rest) => Some([c] + rest)
  }

  /** The number of conditions at the start of conds with the same path. */
  function RunLength(conds: seq<NCond>): (n: nat)
    requires conds != []
    ensures 1 <= n <= |conds|
    ensures forall i :: 0 <= i < n ==> conds[i].path == conds[0].path
    ensures n < |conds| ==> conds[n].path != conds[0].path
  {
    if |conds| > 1 && conds[1].path == conds[0].path then 1 + RunLength(conds[1..]) else 1
  }

  function Exprs(conds: seq<NCond>): (es: seq<Expr>)
    ensures |es| == |conds|
    ensures forall i :: 0 <= i < |es| ==> es[i] == conds[i].expr
  {
    if conds == [] then [] else [conds[0].expr] + Exprs(conds[1..])
  }

  predicate HasAbsent(conds: seq<NCond>) {
    exists i :: 0 <= i < |conds| && conds[i].expr.Absent?
  }

  /** All conditions on a path must hold, which is what allOf means. */
  function MergeRun(run: seq<NCond>): Option<NCond>
    requires run != []
  {
    if |run| == 1 then Some(run[0])
    else if HasAbsent(run) then None
    else Some(NCond(run[0].path, Combine(AllOf, Exprs(run))))
  }

  /** Merges the conditions on the same path of a sorted sequence. */
  function Merge(conds: seq<NCond>): Option<seq<NCond>> {
    if conds == [] then Some([])
    else
      var n := RunLength(conds);
      match MergeRun(conds[..n])
      case None => None
      case Some(c) =>
        match Merge(conds[n..])
        case None => None
        case Some(rest) => Some([c] + rest)
  }

  /** normalizeConditions: a condition set without alternatives. */
  function NormalizeConditions(w: World, cs: seq<Rules.Condition>): Option<seq<NCond>> {
    match NormalizeEach(w, cs)
    case None => None
    case Some(conds) => Merge(Sort(PathLeq, conds))
  }

  /** The first condition with alternatives from position i on, or |cs|. */
  function FindOr(cs: seq<Rules.Condition>, i: nat): (or: nat)
    requires i <= |cs|
    ensures i <= or <= |cs|
    ensures or < |cs| ==> cs[or].or.Or?
    ensures forall j :: i <= j < or ==> cs[j].or.NoOr?
    decreases |cs| - i
  {
    if i == |cs| || cs[i].or.Or? then i else FindOr(cs, i + 1)
  }

  const NO_PATTERN := Rules.Pattern(Rules.Equals, [], [], false)

  /**
   * normalizeSets: the condition sets of cs, which follow before sets found
   * so far, or None if the rule is invalid.
   */
  function NormalizeSets(w: World, before: nat, cs: seq<Rules.Condition>, depth: nat): Option<seq<seq<NCond>>>
    requires depth <= MAX_OR_DEPTH
    decreases MAX_OR_DEPTH - depth, 0
  {
    if cs == [] then None
    else
      var or := FindOr(cs, 0);
      if or == |cs| then
        match NormalizeConditions(w, cs)
        case None => None
        case Some(conds) => Some([conds])
      else if FindOr(cs, or + 1) < |cs| then None
      else
        var c := cs[or];
        if c.or.sets == [] || c.path != [] || c.pattern != NO_PATTERN || depth >= MAX_OR_DEPTH then None
        else NormalizeAlternatives(w, before, c.or.sets, cs[..or] + cs[or + 1..], depth)
  }

  /** Every alternative holds together with the conditions plain beside it. */
  function NormalizeAlternatives(w: World, before: nat, alternatives: seq<Rules.ConditionSet>,
                                 plain: seq<Rules.Condition>, depth: nat): Option<seq<seq<NCond>>>
    requires depth < MAX_OR_DEPTH
    decreases MAX_OR_DEPTH - depth - 1, 1, |alternatives|
  {
    if alternatives == [] then Some([])
    else
      match NormalizeSets(w, before, alternatives[0].conds + plain, depth + 1)
      case None => None
      case Some(sets) =>
        if before + |sets| > MAX_CONDITION_SETS then None
        else
          match NormalizeAlternatives(w, before + |sets|, alternatives[1..], plain, depth)
          case None => None
          case Some(rest) => Some(sets + rest)
  }

  /** The loop over the alternatives, one at a time. */
  lemma {:induction false} AlternativesParts(w: World, before: nat, sets: seq<Rules.ConditionSet>,
                                             beside: seq<Rules.Condition>, depth: nat)
    requires depth < MAX_OR_DEPTH && sets != []
    ensures var first := NormalizeSets(w, before, sets[0].conds + beside, depth + 1);
            NormalizeAlternatives(w, before, sets, beside, depth) ==
            if first.None? || before + |first.value| > MAX_CONDITION_SETS then None
            else
              var rest := NormalizeAlternatives(w, before + |first.value|, sets[1..], beside, depth);
              if rest.None? then None else Some(first.value + rest.value)
  {
  }

  /** normalizeRule: the condition sets of a rule, or None for ErrInvalidRule. */
  function NormalizeRule(w: World, rule: Rules.ConditionSet): Option<seq<seq<NCond>>> {
    NormalizeSets(w, 0, rule.conds, 0)
  }
}
