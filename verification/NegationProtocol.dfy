/**
 * Adding conditions to a group against one concurrent evaluation of the group,
 * as interleaved atomic steps (follow and evalGroup in engine.go, add and
 * collect in index.go).
 */
module NegationProtocol {
  import opened Expressions
  import opened Formulas

  /** A condition; neg is 1 + its position among the negations if its leaves refute it, or 0. */
  datatype Edge = Edge(f: Formula, simple: bool, neg: nat)

  /** The event and the leaves of the group: the kind of every leaf, and the leaves some value matches. */
  datatype Setting = Setting(kindOf: nat -> nat, matching: set<nat>)

  function Leaves(f: Formula): set<nat>
    decreases f, 1
  {
    match f
    case FLeaf(l) => {l}
    case FNary(_, subs) => AllLeavesOf(subs)
    case FNot(sub) => Leaves(sub)
  }

  function AllLeavesOf(subs: seq<Formula>): set<nat>
    decreases subs, 0
  {
    if subs == [] then {} else Leaves(subs[0]) + AllLeavesOf(subs[1..])
  }

  ghost predicate GoodEdge(e: Edge) {
    && (e.neg != 0 ==> Refutable(e.f))
    && (MonotoneFormula(e.f) ==> e.neg == 0)
    && (e.simple ==> MonotoneFormula(e.f) && forall hits :: Triggers(e.f) * hits != {} ==> Eval(e.f, hits))
  }

  /** The leaves an edge is registered at: its triggers, or the leaves that refute it. */
  function RegisteredAt(e: Edge): set<nat> {
    if MonotoneFormula(e.f) then Triggers(e.f) else if e.neg != 0 && Refutable(e.f) then Refuting(e.f) else {}
  }

  datatype Writer =
    | Idle
    | Storing(edge: Edge)       // stores its leaves in the index
    | Registering(edge: Edge)   // all leaves can be found; registers the edge at some

  /**
   * What evalGroup has loaded so far. To state what it must find, before holds
   * the edges that were complete when it began, and known the leaves that were
   * stored when it loaded the kinds.
   */
  datatype Reader =
    | Outside
    | HasNeg(before: set<Edge>, neg: seq<Edge>)
    | Looking(before: set<Edge>, neg: seq<Edge>, kinds: set<nat>, known: set<nat>, tested: set<nat>, hits: set<nat>)
    | Gathering(before: set<Edge>, neg: seq<Edge>, hits: set<nat>, gathered: set<nat>, cand: set<Edge>)

  datatype State = State(
    stored: set<nat>,                // leaves in the structures of the index
    kinds: set<nat>,
    registered: set<(nat, Edge)>,
    neg: seq<Edge>,
    done: set<Edge>,                 // edges whose follow has returned
    writer: Writer,
    reader: Reader)

  const START := State({}, {}, {}, [], {}, Idle, Outside)

  // ------------------------------------------------------------------- steps

  ghost predicate Begin(s: State, s': State) {
    exists e: Edge :: GoodEdge(e) && s.writer.Idle? && e !in s.done && s' == s.(writer := Storing(e))
  }

  ghost predicate StoreLeaf(s: State, s': State) {
    s.writer.Storing? && exists l: nat :: s' == s.(stored := s.stored + {l})
  }

  /** kinds is set after the leaf was stored. */
  ghost predicate StoreKind(g: Setting, s: State, s': State) {
    s.writer.Storing? && exists l: nat :: l in s.stored && s' == s.(kinds := s.kinds + {g.kindOf(l)})
  }

  /** A lookup for the kind of l finds l. */
  ghost predicate CanFind(g: Setting, s: State, l: nat) {
    l in s.stored && g.kindOf(l) in s.kinds
  }

  ghost predicate AllFound(g: Setting, s: State, e: Edge) {
    forall l :: l in Leaves(e.f) ==> CanFind(g, s, l)
  }

  /** All leaves of the edge are in place. The position of a negation is that of the next one. */
  ghost predicate StartRegistering(g: Setting, s: State, s': State) {
    && s.writer.Storing? && AllFound(g, s, s.writer.edge)
    && (s.writer.edge.neg != 0 ==> s.writer.edge.neg == |s.neg| + 1)
    && s' == s.(writer := Registering(s.writer.edge))
  }

  ghost predicate Register(s: State, s': State) {
    s.writer.Registering? && exists l ::
                               l in RegisteredAt(s.writer.edge) &&
                               s' == s.(registered := s.registered + {(l, s.writer.edge)})
  }

  ghost predicate FullyRegistered(s: State, e: Edge) {
    forall l :: l in RegisteredAt(e) ==> (l, e) in s.registered
  }

  /** Only then is a negation published. */
  ghost predicate Finish(s: State, s': State) {
    s.writer.Registering? && FullyRegistered(s, s.writer.edge) &&
    var e := s.writer.edge;
    s' == s.(writer := Idle, done := s.done + {e}, neg := if MonotoneFormula(e.f) then s.neg else s.neg + [e])
  }

  ghost predicate LoadNeg(s: State, s': State) {
    s.reader.Outside? && s' == s.(reader := HasNeg(s.done, s.neg))
  }

  ghost predicate LoadKinds(s: State, s': State) {
    s.reader.HasNeg? && s' == s.(reader := Looking(s.reader.before, s.reader.neg, s.kinds, s.stored, {}, {}))
  }

  /** A lookup tests the leaf l, and finds it if it is stored by now and some value matches it. */
  ghost predicate Lookup(g: Setting, s: State, s': State) {
    s.reader.Looking? && exists l :: LookupOf(g, s, s', l)
  }

  ghost predicate LookupOf(g: Setting, s: State, s': State, l: nat)
    requires s.reader.Looking?
  {
    var r := s.reader;
    s' == s.(reader := r.(tested := r.tested + {l},
                          hits := if l in s.stored && g.kindOf(l) in r.kinds && l in g.matching then r.hits + {l}
                                  else r.hits))
  }

  ghost predicate EndLookups(s: State, s': State) {
    s.reader.Looking? && s.reader.known <= s.reader.tested &&
    s' == s.(reader := Gathering(s.reader.before, s.reader.neg, s.reader.hits, {}, {}))
  }

  /** Loads the edges registered at one of the hits. */
  ghost predicate Gather(s: State, s': State) {
    s.reader.Gathering? && exists l :: GatherAt(s, s', l)
  }

  ghost predicate GatherAt(s: State, s': State, l: nat)
    requires s.reader.Gathering?
  {
    var r := s.reader;
    l in r.hits &&
    s' == s.(reader := r.(gathered := r.gathered + {l}, cand := r.cand + set p | p in s.registered && p.0 == l :: p.1))
  }

  ghost predicate Leave(s: State, s': State) {
    s.reader.Gathering? && s' == s.(reader := Outside)
  }

  ghost predicate Next(g: Setting, s: State, s': State) {
    || Begin(s, s') || StoreLeaf(s, s') || StoreKind(g, s, s') || StartRegistering(g, s, s') || Register(s, s') ||
       Finish(s, s')
    || LoadNeg(s, s') || LoadKinds(s, s') || Lookup(g, s, s') || EndLookups(s, s') || Gather(s, s') || Leave(s, s')
  }

  // ------------------------------------------------- what evalGroup follows

  /** All edges of the hits were loaded. */
  ghost predicate Ready(s: State) {
    s.reader.Gathering? && s.reader.hits <= s.reader.gathered
  }

  /** With negations loaded, those among the candidates only mark what is refuted. */
  ghost predicate IsCandidate(r: Reader, e: Edge)
    requires r.Gathering?
  {
    e in r.cand && (r.neg != [] ==> e.neg == 0)
  }

  ghost predicate IsRefuted(r: Reader, i: nat)
    requires r.Gathering?
  {
    exists e :: e in r.cand && e.neg == i + 1 && i < |r.neg|
  }

  ghost predicate IsOpen(r: Reader, i: nat)
    requires r.Gathering?
  {
    i < |r.neg| && !IsRefuted(r, i) && (r.neg[i].neg != 0 || Eval(r.neg[i].f, r.hits))
  }

  ghost predicate Follows(r: Reader, e: Edge)
    requires r.Gathering?
  {
    (IsCandidate(r, e) && (e.simple || Eval(e.f, r.hits))) || exists i: nat :: IsOpen(r, i) && r.neg[i] == e
  }

  // --------------------------------------------------------------- invariant

  ghost predicate GoodPair(g: Setting, s: State, l: nat, e: Edge) {
    && GoodEdge(e) && l in RegisteredAt(e) && AllFound(g, s, e)
    && (e.neg != 0 ==> (e.neg <= |s.neg| && s.neg[e.neg - 1] == e) || IsPending(s, e))
  }

  ghost predicate IsPending(s: State, e: Edge) {
    s.writer.Registering? && s.writer.edge == e && e.neg == |s.neg| + 1
  }

  ghost predicate GoodNegation(g: Setting, s: State, i: nat)
    requires i < |s.neg|
  {
    var e := s.neg[i];
    e in s.done && !MonotoneFormula(e.f) && (e.neg == 0 || e.neg == i + 1)
  }

  ghost predicate GoodDone(g: Setting, s: State, e: Edge) {
    GoodEdge(e) && AllFound(g, s, e) && FullyRegistered(s, e) && (MonotoneFormula(e.f) || e in s.neg)
  }

  ghost predicate GoodWriter(g: Setting, s: State) {
    match s.writer
    case Idle => true
    case Storing(e) => GoodEdge(e)
    case Registering(e) => GoodEdge(e) && AllFound(g, s, e) && (e.neg != 0 ==> e.neg == |s.neg| + 1)
  }

  /** The negations a reader loaded are the first ones. */
  ghost predicate IsPrefix(a: seq<Edge>, b: seq<Edge>) {
    |a| <= |b| && forall i :: 0 <= i < |a| ==> a[i] == b[i]
  }

  /** The loaded negations are those of the edges that were complete before. */
  ghost predicate GoodStart(s: State, before: set<Edge>, neg: seq<Edge>) {
    && before <= s.done && IsPrefix(neg, s.neg)
    && (forall e :: e in neg ==> e in before)
    && (forall e :: e in before && !MonotoneFormula(e.f) ==> e in neg)
  }

  ghost predicate GoodReader(g: Setting, s: State) {
    match s.reader
    case Outside => true
    case HasNeg(before, neg) => GoodStart(s, before, neg)
    case Looking(before, neg, kinds, known, tested, hits) =>
      && GoodStart(s, before, neg) && known <= s.stored && hits <= g.matching
      && (forall e, l :: e in before && l in Leaves(e.f) ==> l in known && g.kindOf(l) in kinds)
      && (forall l :: l in tested && l in known && l in g.matching && g.kindOf(l) in kinds ==> l in hits)
    case Gathering(before, neg, hits, gathered, cand) =>
      && GoodStart(s, before, neg) && hits <= g.matching
      && (forall e, l :: e in before && l in Leaves(e.f) && l in g.matching ==> l in hits)
      && (forall e :: e in cand ==> exists l :: l in hits && (l, e) in s.registered)
      && (forall e, l :: e in before && l in gathered && l in RegisteredAt(e) ==> e in cand)
  }

  ghost predicate Inv(g: Setting, s: State) {
    && GoodWriter(g, s)
    && (forall l, e :: (l, e) in s.registered ==> GoodPair(g, s, l, e))
    && (forall i :: 0 <= i < |s.neg| ==> GoodNegation(g, s, i))
    && (forall e :: e in s.done ==> GoodDone(g, s, e))
    && GoodReader(g, s)
  }

  lemma {:induction false} StartInv(g: Setting)
    ensures Inv(g, START)
  {
  }

  // ----------------------------------------------------- every step keeps it

  /** The shared structures only grow. */
  ghost predicate Grows(s: State, s': State) {
    && s.stored <= s'.stored && s.kinds <= s'.kinds && s.registered <= s'.registered
    && IsPrefix(s.neg, s'.neg) && s.done <= s'.done
  }

  lemma {:induction false} FoundLater(g: Setting, s: State, s': State, e: Edge)
    requires Grows(s, s')
    ensures AllFound(g, s, e) ==> AllFound(g, s', e)
    ensures FullyRegistered(s, e) ==> FullyRegistered(s', e)
  {
    if AllFound(g, s, e) {
      forall l | l in Leaves(e.f) ensures CanFind(g, s', l) {
        assert CanFind(g, s, l);
      }
    }
  }

  lemma {:induction false} SharedKeeps(g: Setting, s: State, s': State)
    requires Inv(g, s) && Grows(s, s') && s'.registered == s.registered && s'.neg == s.neg && s'.done == s.done
    requires s'.writer == s.writer || !s.writer.Registering?
    ensures (forall l, e :: (l, e) in s'.registered ==> GoodPair(g, s', l, e))
    ensures (forall i :: 0 <= i < |s'.neg| ==> GoodNegation(g, s', i))
    ensures (forall e :: e in s'.done ==> GoodDone(g, s', e))
  {
    forall l, e | (l, e) in s'.registered ensures GoodPair(g, s', l, e) {
      assert GoodPair(g, s, l, e);
      FoundLater(g, s, s', e);
    }
    forall i | 0 <= i < |s'.neg| ensures GoodNegation(g, s', i) {
      assert GoodNegation(g, s, i);
      FoundLater(g, s, s', s.neg[i]);
    }
    forall e | e in s'.done ensures GoodDone(g, s', e) {
      assert GoodDone(g, s, e);
      FoundLater(g, s, s', e);
    }
  }

  lemma {:induction false} ReaderKeeps(g: Setting, s: State, s': State)
    requires GoodReader(g, s) && Grows(s, s') && s'.reader == s.reader
    ensures GoodReader(g, s')
  {
    match s.reader
    case Gathering(before, neg, hits, gathered, cand) =>
      forall e | e in cand ensures exists l :: l in hits && (l, e) in s'.registered {
        var l :| l in hits && (l, e) in s.registered;
        assert (l, e) in s'.registered;
      }
    case _ =>
  }

  lemma {:induction false} StoreKeeps(g: Setting, s: State, s': State)
    requires Inv(g, s) && (Begin(s, s') || StoreLeaf(s, s') || StoreKind(g, s, s') || StartRegistering(g, s, s'))
    ensures Inv(g, s')
  {
    SharedKeeps(g, s, s');
    ReaderKeeps(g, s, s');
  }

  lemma {:induction false} RegisterKeeps(g: Setting, s: State, s': State)
    requires Inv(g, s) && Register(s, s')
    ensures Inv(g, s')
  {
    var edge := s.writer.edge;
    forall l, e | (l, e) in s'.registered ensures GoodPair(g, s', l, e) {
      if (l, e) in s.registered {
        assert GoodPair(g, s, l, e);
        FoundLater(g, s, s', e);
      } else {
        FoundLater(g, s, s', edge);
      }
    }
    forall i | 0 <= i < |s'.neg| ensures GoodNegation(g, s', i) {
      assert GoodNegation(g, s, i);
    }
    forall e | e in s'.done ensures GoodDone(g, s', e) {
      assert GoodDone(g, s, e);
      FoundLater(g, s, s', e);
    }
    FoundLater(g, s, s', edge);
    ReaderKeeps(g, s, s');
  }

  lemma {:induction false} FinishKeeps(g: Setting, s: State, s': State)
    requires Inv(g, s) && Finish(s, s')
    ensures Inv(g, s')
  {
    var edge := s.writer.edge;
    forall l, e | (l, e) in s'.registered ensures GoodPair(g, s', l, e) {
      assert GoodPair(g, s, l, e);
      FoundLater(g, s, s', e);
    }
    forall i | 0 <= i < |s'.neg| ensures GoodNegation(g, s', i) {
      assert i < |s.neg| ==> GoodNegation(g, s, i);
    }
    forall e | e in s'.done ensures GoodDone(g, s', e) {
      FoundLater(g, s, s', e);
      assert e != edge ==> GoodDone(g, s, e);
      assert forall d :: d in s.neg ==> d in s'.neg;
    }
    ReaderKeeps(g, s, s');
  }

  lemma {:induction false} ReadKeeps(g: Setting, s: State, s': State)
    requires Inv(g, s)
    requires LoadNeg(s, s') || LoadKinds(s, s') || Lookup(g, s, s') || EndLookups(s, s') || Leave(s, s')
    ensures Inv(g, s')
  {
    SharedKeeps(g, s, s');
    if LoadNeg(s, s') {
      forall e | e in s.neg ensures e in s.done {
        var i :| 0 <= i < |s.neg| && s.neg[i] == e;
        assert GoodNegation(g, s, i);
      }
      forall e | e in s.done && !MonotoneFormula(e.f) ensures e in s.neg {
        assert GoodDone(g, s, e);
      }
    } else if LoadKinds(s, s') {
      forall e, l | e in s.reader.before && l in Leaves(e.f) ensures l in s.stored && g.kindOf(l) in s.kinds {
        assert GoodDone(g, s, e) && CanFind(g, s, l);
      }
    }
  }

  lemma {:induction false} GatherKeeps(g: Setting, s: State, s': State)
    requires Inv(g, s) && Gather(s, s')
    ensures Inv(g, s')
  {
    SharedKeeps(g, s, s');
    var l: nat :| GatherAt(s, s', l);
    var r := s'.reader;
    forall e | e in r.cand ensures exists k :: k in r.hits && (k, e) in s'.registered {
      if e !in s.reader.cand {
        var p :| p in s.registered && p.0 == l && p.1 == e;
        assert p == (l, e);
      }
    }
    forall e, k | e in r.before && k in r.gathered && k in RegisteredAt(e) ensures e in r.cand {
      assert GoodDone(g, s, e);
      if k == l {
        var p := (l, e);
        assert p in s.registered && p.0 == l && p.1 == e;
      }
    }
  }

  lemma {:induction false} NextKeeps(g: Setting, s: State, s': State)
    requires Inv(g, s) && Next(g, s, s')
    ensures Inv(g, s')
  {
    if Begin(s, s') || StoreLeaf(s, s') || StoreKind(g, s, s') || StartRegistering(g, s, s') {
      StoreKeeps(g, s, s');
    } else if Register(s, s') {
      RegisterKeeps(g, s, s');
    } else if Finish(s, s') {
      FinishKeeps(g, s, s');
    } else if Gather(s, s') {
      GatherKeeps(g, s, s');
    } else {
      ReadKeeps(g, s, s');
    }
  }

  // ---------------------------------------------------- the result is right

  /** Only the leaves of a formula matter. */
  lemma {:induction false} EvalSame(f: Formula, a: set<nat>, b: set<nat>)
    requires forall l :: l in Leaves(f) ==> (l in a <==> l in b)
    ensures Eval(f, a) <==> Eval(f, b)
    decreases f
  {
    match f
    case FLeaf(l) =>
    case FNot(sub) =>
      EvalSame(sub, a, b);
    case FNary(op, subs) =>
      forall sub | sub in subs ensures Eval(sub, a) <==> Eval(sub, b) {
        LeavesOfMember(subs, sub);
        EvalSame(sub, a, b);
      }
  }

  lemma {:induction false} LeavesOfMember(subs: seq<Formula>, sub: Formula)
    requires sub in subs
    ensures Leaves(sub) <= AllLeavesOf(subs)
  {
    if subs[0] != sub {
      LeavesOfMember(subs[1..], sub);
    }
  }

  /** An edge that was complete when the call began is evaluated as if all leaves were known. */
  lemma {:induction false} EvaluatedExactly(g: Setting, s: State, e: Edge)
    requires Inv(g, s) && s.reader.Gathering? && e in s.reader.before
    ensures Eval(e.f, s.reader.hits) <==> Eval(e.f, g.matching)
  {
    EvalSame(e.f, s.reader.hits, g.matching);
  }

  /** A loaded negation with a position is marked as refuted exactly if one of the leaves that refute it matches. */
  lemma {:induction false} RefutedExactly(g: Setting, s: State, i: nat)
    requires Inv(g, s) && Ready(s) && i < |s.reader.neg| && s.reader.neg[i].neg != 0
    ensures IsRefuted(s.reader, i) <==> !Eval(s.reader.neg[i].f, g.matching)
  {
    var r := s.reader;
    var e := r.neg[i];
    assert e in r.neg && e == s.neg[i] && GoodNegation(g, s, i) && GoodDone(g, s, e);
    EvaluatedExactly(g, s, e);
    RefutedByLeaves(e.f, r.hits);
    if IsRefuted(r, i) {
      var d :| d in r.cand && d.neg == i + 1;
      var l :| l in r.hits && (l, d) in s.registered;
      assert GoodPair(g, s, l, d);
      assert l in Refuting(e.f) * r.hits;
    }
    if !(Refuting(e.f) !! r.hits) {
      var l :| l in Refuting(e.f) && l in r.hits;
      assert l in r.gathered && l in RegisteredAt(e);
      assert e in r.cand;
    }
  }

  /** A negation that was not loaded is not followed, even if it is found at a leaf that refutes it. */
  lemma {:induction false} CandidateSound(g: Setting, s: State, e: Edge)
    requires Inv(g, s) && s.reader.Gathering? && IsCandidate(s.reader, e) && (e.simple || Eval(e.f, s.reader.hits))
    ensures MonotoneFormula(e.f) && Eval(e.f, g.matching)
  {
    var r := s.reader;
    var l :| l in r.hits && (l, e) in s.registered;
    assert GoodPair(g, s, l, e) && l in RegisteredAt(e) * r.hits;
    if MonotoneFormula(e.f) {
      MonotoneInHits(e.f, r.hits, g.matching);
    } else {
      RefutedByLeaves(e.f, r.hits);
    }
  }

  /**
   * At every interleaving: what evalGroup follows holds for the leaves that
   * match, also those added while it ran, and every condition that was
   * complete when it began is followed if it holds.
   */
  lemma {:induction false} FollowsExactly(g: Setting, s: State, e: Edge)
    requires Inv(g, s) && Ready(s)
    ensures Follows(s.reader, e) ==> Eval(e.f, g.matching)
    ensures e in s.reader.before && Eval(e.f, g.matching) ==> Follows(s.reader, e)
  {
    var r := s.reader;
    if Follows(r, e) {
      if IsCandidate(r, e) && (e.simple || Eval(e.f, r.hits)) {
        CandidateSound(g, s, e);
      } else {
        var i: nat :| IsOpen(r, i) && r.neg[i] == e;
        OpenExactly(g, s, i);
      }
    }
    if e in r.before && Eval(e.f, g.matching) {
      CompleteIsFollowed(g, s, e);
    }
  }

  lemma {:induction false} OpenExactly(g: Setting, s: State, i: nat)
    requires Inv(g, s) && Ready(s) && i < |s.reader.neg|
    ensures IsOpen(s.reader, i) <==> Eval(s.reader.neg[i].f, g.matching)
  {
    var r := s.reader;
    var e := r.neg[i];
    assert e in r.neg && e == s.neg[i] && GoodNegation(g, s, i);
    if e.neg != 0 {
      RefutedExactly(g, s, i);
    } else {
      EvaluatedExactly(g, s, e);
      NotMarked(g, s, i);
    }
  }

  /** No edge carries the position of a negation that is not registered anywhere. */
  lemma {:induction false} NotMarked(g: Setting, s: State, i: nat)
    requires Inv(g, s) && s.reader.Gathering? && i < |s.reader.neg| && s.reader.neg[i].neg == 0
    ensures !IsRefuted(s.reader, i)
  {
    var r := s.reader;
    forall d | d in r.cand ensures d.neg != i + 1 {
      var l :| l in r.hits && (l, d) in s.registered;
      assert GoodPair(g, s, l, d);
    }
  }

  lemma {:induction false} CompleteIsFollowed(g: Setting, s: State, e: Edge)
    requires Inv(g, s) && Ready(s) && e in s.reader.before && Eval(e.f, g.matching)
    ensures Follows(s.reader, e)
  {
    var r := s.reader;
    assert GoodDone(g, s, e);
    EvaluatedExactly(g, s, e);
    if MonotoneFormula(e.f) {
      TriggersMissNothing(e.f, r.hits);
      var l :| l in Triggers(e.f) * r.hits;
      assert l in r.gathered && l in RegisteredAt(e);
    } else {
      assert e in r.neg;
      var i :| 0 <= i < |r.neg| && r.neg[i] == e;
      OpenExactly(g, s, i);
    }
  }

  /** Some steps in a row. */
  ghost predicate IsPath(g: Setting, path: seq<State>) {
    path != [] && forall i :: 0 <= i < |path| - 1 ==> Next(g, path[i], path[i + 1])
  }

  ghost predicate IsRun(g: Setting, run: seq<State>) {
    IsPath(g, run) && run[0] == START
  }

  lemma {:induction false} RunKeeps(g: Setting, run: seq<State>, i: nat)
    requires IsRun(g, run) && i < |run|
    ensures Inv(g, run[i])
  {
    if i == 0 {
      StartInv(g);
    } else {
      RunKeeps(g, run, i - 1);
      NextKeeps(g, run[i - 1], run[i - 1 + 1]);
    }
  }

  /** The same for every run, whatever steps came before. */
  lemma {:induction false} RunFollowsExactly(g: Setting, run: seq<State>, i: nat, e: Edge)
    requires IsRun(g, run) && i < |run| && Ready(run[i])
    ensures Follows(run[i].reader, e) ==> Eval(e.f, g.matching)
    ensures e in run[i].reader.before && Eval(e.f, g.matching) ==> Follows(run[i].reader, e)
  {
    RunKeeps(g, run, i);
    FollowsExactly(g, run[i], e);
  }

  // ------------------------------------------------- every edge is completed

  function Last(path: seq<State>): State
    requires path != []
  {
    path[|path| - 1]
  }

  lemma {:induction false} PathNext(g: Setting, path: seq<State>, s: State)
    requires IsPath(g, path) && Next(g, Last(path), s)
    ensures IsPath(g, path + [s]) && Last(path + [s]) == s
  {
    var longer := path + [s];
    forall i | 0 <= i < |longer| - 1 ensures Next(g, longer[i], longer[i + 1]) {
      assert i < |path| - 1 ==> Next(g, path[i], path[i + 1]);
    }
  }

  /** The steps of more go on where path ends, and change nothing but what the writer stores and registers. */
  ghost predicate Continues(g: Setting, path: seq<State>, more: seq<State>) {
    && IsPath(g, path) && IsPath(g, more) && path <= more && Grows(Last(path), Last(more))
    && Last(more).writer == Last(path).writer && Last(more).reader == Last(path).reader
    && Last(more).neg == Last(path).neg && Last(more).done == Last(path).done
  }

  lemma {:induction false} StoreOne(g: Setting, path: seq<State>, l: nat) returns (more: seq<State>)
    requires IsPath(g, path) && Last(path).writer.Storing?
    ensures Continues(g, path, more) && CanFind(g, Last(more), l)
  {
    var s := Last(path);
    var a := s.(stored := s.stored + {l});
    var b := a.(kinds := a.kinds + {g.kindOf(l)});
    assert StoreLeaf(s, a) && StoreKind(g, a, b);
    PathNext(g, path, a);
    PathNext(g, path + [a], b);
    more := path + [a] + [b];
  }

  lemma {:induction false} StoreAll(g: Setting, path: seq<State>, ls: set<nat>) returns (more: seq<State>)
    requires IsPath(g, path) && Last(path).writer.Storing?
    ensures Continues(g, path, more) && forall l :: l in ls ==> CanFind(g, Last(more), l)
  {
    more := path;
    if ls != {} {
      var l :| l in ls;
      var some := StoreAll(g, path, ls - {l});
      more := StoreOne(g, some, l);
      forall k | k in ls ensures CanFind(g, Last(more), k) {
        assert k != l ==> CanFind(g, Last(some), k);
      }
    }
  }

  lemma {:induction false} RegisterAll(g: Setting, path: seq<State>, ls: set<nat>) returns (more: seq<State>)
    requires IsPath(g, path) && Last(path).writer.Registering? && ls <= RegisteredAt(Last(path).writer.edge)
    ensures Continues(g, path, more)
    ensures forall l :: l in ls ==> (l, Last(path).writer.edge) in Last(more).registered
  {
    more := path;
    if ls != {} {
      var l :| l in ls;
      var some := RegisterAll(g, path, ls - {l});
      var s := Last(some);
      var t := s.(registered := s.registered + {(l, s.writer.edge)});
      assert Register(s, t);
      PathNext(g, some, t);
      more := some + [t];
    }
  }

  /** The steps from the end of path complete e, which begins as the next one. */
  lemma {:induction false} StoredAndRegistered(g: Setting, path: seq<State>, e: Edge) returns (more: seq<State>)
    requires IsPath(g, path) && Last(path).writer == Storing(e)
    requires e.neg == 0 || e.neg == |Last(path).neg| + 1
    ensures IsPath(g, more) && path <= more && Last(more).writer == Registering(e) && FullyRegistered(Last(more), e)
    ensures Last(more).neg == Last(path).neg && Last(more).done == Last(path).done
    ensures Last(more).reader == Last(path).reader
  {
    var stored := StoreAll(g, path, Leaves(e.f));
    var s := Last(stored);
    var t := s.(writer := Registering(e));
    assert StartRegistering(g, s, t);
    PathNext(g, stored, t);
    more := RegisterAll(g, stored + [t], RegisteredAt(e));
  }

  /**
   * Between two calls of follow, whatever the reader does, some steps add any
   * new condition and publish it: with the others if it is a negation.
   */
  lemma {:induction false} CanComplete(g: Setting, path: seq<State>, e: Edge) returns (more: seq<State>)
    requires IsPath(g, path) && Last(path).writer.Idle? && GoodEdge(e) && e !in Last(path).done
    requires e.neg == 0 || e.neg == |Last(path).neg| + 1
    ensures IsPath(g, more) && path <= more && Last(more).writer.Idle? && Last(more).reader == Last(path).reader
    ensures Last(more).done == Last(path).done + {e}
    ensures Last(more).neg == if MonotoneFormula(e.f) then Last(path).neg else Last(path).neg + [e]
  {
    var s := Last(path);
    var begun := s.(writer := Storing(e));
    assert Begin(s, begun);
    PathNext(g, path, begun);
    var middle := StoredAndRegistered(g, path + [begun], e);
    var t := Last(middle);
    var end := t.(writer := Idle, done := t.done + {e}, neg := if MonotoneFormula(e.f) then t.neg else t.neg + [e]);
    assert Finish(t, end);
    PathNext(g, middle, end);
    more := middle + [end];
  }

  /** The edges follow creates are of this form. */
  lemma {:induction false} CompiledIsGood(ids: LeafIds, x: Expr, neg: nat)
    requires Has(ids, x) && Canonical(x) && (neg != 0 ==> Refutable(FormulaOf(ids, x)))
    ensures GoodEdge(Edge(FormulaOf(ids, x), Simple(x), neg))
  {
    if Simple(x) {
      MonotoneCompiles(ids, x);
      forall hits | Triggers(FormulaOf(ids, x)) * hits != {} ensures Eval(FormulaOf(ids, x), hits) {
        SimpleTriggers(ids, x, hits);
      }
    }
  }
}
