# hypermatch, verified

hypermatch matches events against a set of rules. A rule is a conjunction of
conditions on paths, with `anyOf`, `allOf`, `anythingBut` and alternatives
(`$or`). Its meaning is short: evaluate every condition on the values the event
has at its path. What the library runs is something else: rules are compiled into
one shared trie with value indexes, events are hashed into spans, JSON events are
parsed only where rules look, and readers run without locks while a writer adds,
replaces, removes and compacts rules.

This project models both in Dafny and proves that they agree: after any history
of calls and for every event, the fast forms return what the short meaning says,
in the order of addition. The main theorem is the contract of `Histories.Replay`.
Check everything with `dafny verify dfyconfig.toml`.

## How to read it

1. **Meaning.** `Rules` defines patterns, conditions, events and when a rule
   holds. `Meanings` says the same of single patterns in elementary terms, with
   reals, bytes and ways to split a text. `ValidRules` says which rules are valid.
   `Glob` defines when a wildcard accepts a value.
2. **Rule compiler.** `Expressions` has the canonical expressions and their keys,
   `Semantics` what they mean, `Normalize` the compiler as a function,
   `NormalizeLoops` its loops. `NormalizeCorrect`, `NormalizeGood` and
   `ValidRules` prove that it accepts exactly the valid rules and keeps their
   meaning.
3. **Value indexes.** `GlobTrie`, `GlobNfa`, `NumIndex` and `CidrIndex`, combined
   by `ValueIndex`, each find the same leaves as trying every leaf.
4. **Trie.** `Formulas` compiles conditions, `Groups` evaluates all conditions on
   one path at once, `GroupGrowth` adds one. `Tries` and `Insertions` grow the
   trie; `Walks` and `Scratches` walk it; `Compaction` copies it from keys.
5. **Events.** `Probing`, `SpanIndex` and `SpanTables` group the values of an
   event by path. For a JSON text, `JsonText` finds the tokens; `JsonGrammar`,
   `JsonRecords`, `MatchJson` and `JsonGroups` parse them and group the values,
   skipping what no rule refers to.
6. **Rule numbers and the public type.** `Visibility`, `RuleTables`,
   `RuleTableSteps` and `Results` relate rule numbers to what was added;
   `HyperMatches` holds the class with the public methods, and `Histories` runs
   arbitrary calls on it.
7. **Concurrency.** State machines whose steps are the atomic loads and stores of
   one writer and one call, in the order of the code: `ReplaceProtocol` for
   ReplaceRule, `RemoveProtocol` for RemoveRule and compaction, `NegationProtocol`
   for adding negations, and `PathProtocol` for adding paths while a call makes its
   `Lookups`. `LatePaths` and `LateRuns` say exactly what can go wrong with them;
   `AtomicMatch` puts `ReplaceProtocol` and `PathProtocol` together.
8. **Building blocks on their own.** `StrMap` and `ByteMap` (hash map and
   rank-indexed map), `ParseNumber`, `IPv4` and `IPv6` (text forms).

States, nodes and edges that the code links by pointers are numbered here, and a
number stands for a pointer. What Go's libraries do with text is collected in
`Rules.World`: case folding, conversion of decimal text, text forms of intervals
and prefixes. All theorems hold for any such functions as long as text that was
printed can be read back (`World.Lawful`, asked only of numbers that some text
denotes; `SampleWorlds.SampleIsLawful` gives functions that meet it, with every
address of 32 or 128 bits and every prefix among what they read). Hash
functions are arbitrary.

The code departs from what one would expect of it in three places:

- The fast path of `parseNumber` reads the exponent digits with saturation. A
  saturated exponent reaches it only with at least 99,978 fraction digits;
  `ParseNumber.LongFractionInexact` gives such a number, which is read as another
  one, and `ParseNumber.FastExact` says exactly which numbers are read as written
  and which are not.
- A call gathers values only for paths it finds when it looks them up. If
  `AddRule` adds a rule to an identifier the call already sees, the call can follow
  conditions on new paths without having seen all of their values, and so report
  the identifier although none of its rules holds. `LateRuns.GoesWrongIff` says
  exactly for which condition sets and events this can happen: each condition has
  to hold for the values that are found if its path becomes known at some moment of
  the call. Only rules with negations or `exists: false` are affected, and in
  `Match` only those on wildcard paths (`LateRuns.SafeNeverWrong`).
  `AbsentGoesWrong`, `WildcardGoesWrong` and `StarKeyGoesWrong` give such runs. What
  `ReplaceRule` adds is always followed exactly (`PathProtocol.ReplacedExact`).
- `Match` promises each identifier at most once. A call that loads the version,
  and the identifiers only after one of them was replaced, removed and added
  again, reports that one twice. `RemoveProtocol.TwiceHappens` gives the run, and
  `RemoveProtocol.TwiceIff` says exactly when it happens.

## Model

| member | source | states |
|---|---|---|
| `Histories.Replay` | hypermatch.go:259-262 | after any history of calls, valid or not, the result contains an identifier exactly if one of the rules it has by its own calls holds naively, in the order in which the identifiers became present, each once; MatchFirst returns its head |
| `Histories.MatchesIsResult` | hypermatch.go:55-61 | the naive result over the stored entries is what the history says for each identifier on its own |
| `Histories.AfterRecords` | hypermatch.go:91-95 | after any history the entries are exactly the present identifiers with their rules, ordered by the call that made them present; replacing keeps the position, removing and adding again does not |
| `HyperMatches.HyperMatch.constructor` | hypermatch.go:43-45 | a new HyperMatch stores nothing and satisfies the invariant on which all other methods rely |
| `HyperMatches.HyperMatch.AddRule` | hypermatch.go:61-89 | succeeds exactly for the rules that are valid by `ValidRules.ValidRule`; then the identifier, old or new, has one more alternative rule, and everything else, including the order of the identifiers, is as before; an invalid rule changes nothing |
| `HyperMatches.HyperMatch.ReplaceRule` | hypermatch.go:96-154 | succeeds exactly for valid rules; a present identifier keeps its position and has only the new rule, a new one is added last; all invariants hold again, with the old table or a compacted one |
| `HyperMatches.HyperMatch.RemoveRule` | hypermatch.go:164-183 | reports whether the identifier was present, removes it with all its rules and keeps all others in order |
| `HyperMatches.HyperMatch.Match` | hypermatch.go:278-296 | after any history of calls the result is the naive one: the identifiers with a rule that holds under condition-by-condition evaluation, each once, in the order of addition |
| `HyperMatches.HyperMatch.MatchFirst` | hypermatch.go:303-318 | returns the head of what Match returns, or nothing exactly if Match is empty, although the walk prunes subtrees by their smallest order key |
| `HyperMatches.HyperMatch.MatchJson` | matchjson.go:33-62 | fails exactly if the data is not the text of one object within the nesting limit; otherwise the result is that of matching its members flattened first |
| `HyperMatches.HyperMatch.MatchFirstJson` | matchjson.go:66-90 | the same with the first identifier only |
| `HyperMatches.HyperMatch.RuleCount` | hypermatch.go:373-375 | the separate counter always equals the number of identifiers stored |
| `HyperMatches.HyperMatch.Compact` | hypermatch.go:213-245 | compaction is invisible: the entries, and so every Match result in order, stay the same, the table is new, no number is dead any more, and the load invariant (fewer than a quarter of the numbers are dead, or there are none) holds |
| `HyperMatches.HyperMatch.CompactIfDue` | hypermatch.go:149-152 | compacts exactly if a quarter of the rule numbers are dead; from a state in which only the load invariant may fail, all invariants hold afterwards, and the entries are the same |
| `HyperMatches.HyperMatch.TakeOver` | hypermatch.go:129-149 | the new number takes the order key and the place of the old one, which is dead afterwards |
| `HyperMatches.HyperMatch.AddReplacement` | hypermatch.go:138-144 | visibility, identifier and condition sets of the new number are in place, with order keys that still bound every subtree, while the old number is still current |
| `HyperMatches.HyperMatch.NewNumber` | hypermatch.go:196-209 | a fresh number that no state refers to yet, registered for a new identifier without rules |
| `Results.ResultsCorrect` | hypermatch.go:335-370 | if the visible numbers the walk hits are listed in key order, their identifiers are exactly the naive result, in order |
| `Results.BestIsFirst` | hypermatch.go:303-318 | the best rule of a pruned walk is the first identifier of the naive result, and there is none exactly if that is empty |
| `Results.ResultNumbers` | hypermatch.go:335-370 | sorting, removing duplicates, filtering and sorting by key gives exactly the visible collected numbers in key order |
| `Results.HitMeansHolds` | engine.go:623-658 | the walk reaches the number of an entry exactly if some rule of the entry holds naively for the event |
| `Results.LiveMeansHolds` | engine.go:623-658 | the walk reaches a state exactly if all conditions on the way to it hold for the event |
| `Results.CollectedHits` | engine.go:97-108 | what a full walk collects is exactly the rules of the reached states, each state being visited once |
| `Results.VisibleOrdersDiffer` | hypermatch.go:363-365 | no two visible numbers have the same order key, so the unstable sort by key has one possible result |
| `Meanings.SingleMeaning` | explain.go:55-83 | a rule with one condition without sub-patterns holds exactly if the event has a value at the path of which the pattern says so in elementary terms: equality, a beginning, an end, a wildcard byte by byte, a comparison of numbers, or the bits of a prefix |
| `Meanings.ExistsMeaning` | explain.go:136-138 | `exists` holds exactly if there being a value at the path agrees with the text being the bytes of `true` |
| `Meanings.RealBounds` | normalize.go:269-283 | the interval of each comparison holds exactly the finite numbers that are less than, at most, more than, at least or equal to its bound, as reals |
| `Meanings.BoundMeaning` | normalize.go:269-283 | the same for all numbers, infinite ones included |
| `Meanings.FoldedValues` | explain.go:85-98 | the naive evaluation looks at exactly the folded values of the properties the path names, or that are below what comes before a final `.*` |
| `Meanings.WildcardGlobs` | explain.go:194-219 | the tokens of a wildcard accept exactly the values the text stands for byte by byte; a text with an invalid escape stands for none |
| `RuleTables.ReplacedGood` | hypermatch.go:129-149 | replacing keeps the correspondence of live numbers and entries: every live number belongs to one entry and order keys increase along the entries |
| `RuleTables.ReplacedPast` | hypermatch.go:129-148 | replacing a number changes nothing for a call that has loaded an earlier version: it sees the same numbers, and not the new one |
| `RuleTables.RemovedGood` | hypermatch.go:164-183 | removing keeps that correspondence for the remaining entries |
| `RuleTables.NewNumberGood` | hypermatch.go:196-209 | registering a new identifier keeps it; the new order key is the largest |
| `RuleTables.AddedRuleGood` | hypermatch.go:83-87 | after the condition sets of a rule are added to a number, that number ends exactly where the rules of its entry lead, and no other number moved |
| `RuleTables.ReplacedRules` | hypermatch.go:140-149 | the new number ends exactly where the new rule leads, and all other entries keep their condition sets |
| `RuleTableSteps.CompactedStep` | hypermatch.go:213-245 | a rebuilt trie with renumbered rules is again a correct table of the same entries |
| `RuleTableSteps.LiveInOrder` | hypermatch.go:214-230 | the numbers that survive, sorted by key, are those of the entries in the order of the entries |
| `RuleTableSteps.RenumberAll` | hypermatch.go:232-241 | identifiers, numbers by identifier and the renumbering agree with each other for all survivors |
| `Insertions.AddSets` | hypermatch.go:80-87 | exactly the pairs of the number and one of the condition sets are added; no state stores a number twice, also when the check for its presence is skipped for a new number with one set |
| `Compaction.CopyRules` | engine.go:347-349 | the copy ends rule m where some rule n that was renumbered to m ended, and nothing else, with order keys that bound every subtree; conditions are recovered from their keys alone |
| `Compaction.CopyState` | engine.go:351-376 | copying a state adds exactly the surviving rules of its whole subtree, whatever order the keys of a group are visited in |
| `Compaction.CopyEdges` | engine.go:369-375 | the conditions of a group are copied completely for any iteration order of the map |
| `Tries.TrailInjective` | engine.go:13-17 | different states are reached by different condition sequences, so rules with common conditions share exactly their common prefix |
| `Tries.Trie.Insert` | engine.go:262-270 | the returned state is the one these conditions lead to, existing states and their rules are untouched, new states have no rules, and every order key on the way is low enough before a rule is added |
| `Tries.Trie.Follow` | engine.go:272-318 | the condition leads to the returned state afterwards, all invariants of groups, edges and indexes hold, and nothing else changed |
| `Tries.Trie.FollowAbsent` | engine.go:322-338 | the same for conditions on absent properties |
| `Tries.Trie.AddRule` | engine.go:89-95 | the rule is added to this state only; keys still bound the order keys of every subtree |
| `Tries.Trie.KnowPath` | engine.go:46-61 | all paths of conditions stay recorded |
| `Tries.ExtendedRules` | engine.go:262-270 | inserting conditions moves no rule: the same numbers end at the same conditions |
| `Tries.LowerKeysBound` | engine.go:74-78 | lowering keys from the root downwards keeps every key a lower bound of its subtree |
| `Tries.AttachLinked` | engine.go:289-318 | after a new state is attached, conditions lead exactly from a state to the states added to it |
| `Tries.GroupLeadsThere` | engine.go:287-298 | only the new condition of a group leads anywhere new, because different conditions have different keys |
| `Paths.AddPath` | engine.go:46-61 | the prefixes are exactly the parts before dots of the recorded paths, the wildcards exactly the bases of those ending in a dot and a star |
| `Scratches.Scratch.Visit` | engine.go:623-658 | a full walk visits exactly the live states of the subtree, each once, and collects their rules; a first-match walk ends with a visible rule of the subtree, or the one before, whose key is smallest; the edge stack is restored |
| `Scratches.GroupsToEvaluate` | engine.go:640-657 | looking up groups by path or paths by group, whichever are fewer, selects the same groups, each once |
| `Scratches.TargetsAreKids` | engine.go:684-826 | the edges that hold lead to exactly the children whose conditions hold, each once |
| `Walks.PruneSafe` | engine.go:564-575 | a pruned subtree contains no visible rule with a smaller key than the best so far |
| `Walks.SubtreeKeys` | engine.go:63-70 | the key of a state is at most the order key of every rule in its subtree |
| `Walks.ConsiderAll` | engine.go:568-584 | the result is the old best rule or a visible rule of the state, and at least as good as all of them |
| `Walks.CoverAll` | engine.go:623-658 | a state and the subtrees of its live children are exactly what is live below it |
| `Walks.AbsentKids` | engine.go:631-639 | the absent edges to follow are exactly those whose path has no value, with different targets |
| `Groups.EvalGroup` | engine.go:684-826 | the returned edges are exactly those whose condition holds for the values, each once |
| `Groups.CollectHits` | engine.go:705-735 | the hits are exactly the leaves some value matches, each once, whatever kinds of leaves there are |
| `Groups.DropNegations` | engine.go:743-761 | candidates without negation position are kept in order, and exactly the positions of the others are marked |
| `Groups.EvalCandidates` | engine.go:762-786 | exactly the candidates whose formula holds on the hits remain, once each |
| `Groups.OpenNegations` | engine.go:787-808 | exactly the unmarked negations whose formula holds, where one is needed, are appended |
| `Groups.PositiveCorrect` | engine.go:737-786 | a condition without negation is found at a hit and evaluates to true exactly if it holds |
| `Groups.NegationCorrect` | engine.go:787-808 | a negation is open after the marks exactly if it holds |
| `GroupGrowth.AddCondition` | engine.go:287-318 | the group stays valid (leaves indexed, edges registered at their triggers or refuting leaves, negations at their positions) and gains this condition only |
| `Formulas.TriggersMissNothing` | engine.go:236-256 | a monotone formula that holds has one of its triggers among the hits |
| `Formulas.RefutedByLeaves` | engine.go:216-232 | a refutable formula holds exactly if none of its leaves is hit |
| `Formulas.EvalAgrees` | engine.go:190-212 | evaluating the compiled formula on the exact hits agrees with the meaning of the expression |
| `Formulas.SimpleTriggers` | engine.go:290-295 | an expression compiled without formula holds exactly if one of its triggers is hit |
| `Formulas.MonotoneInHits` | engine.go:236-256 | missing hits never make a monotone formula true |
| `Formulas.FormulaStable` | engine.go:378-399 | adding leaves to a group does not change what is compiled |
| `ValueIndex.Add` | index.go:40-74 | the index represents one leaf more, and all others as before |
| `ValueIndex.Collect` | index.go:107-159 | exactly the leaves that match the value are collected, looking only at the kinds present |
| `GlobTrie.Insert` | index.go:181-219 | exactly this pattern is registered for the leaf, and all registered before remain |
| `GlobTrie.WalkInjective` | index.go:161-170 | different token sequences lead to different nodes |
| `GlobNfa.Match` | index.go:223-248 | the result is exactly the leaves with a registered pattern that accepts the value |
| `GlobNfa.Advance` | index.go:226-240 | one byte takes the live nodes to exactly the live nodes one byte later, without duplicates although only spinners are checked |
| `GlobNfa.NextIsAlive` | index.go:226-240 | a node is live after one more byte exactly if a live node leads to it or it spins |
| `NumIndex.Collect` | number.go:229-268 | exactly the leaves whose interval contains the number, from sorted, recent and prefix-maximum lists |
| `NumIndex.Add` | number.go:179-193 | the entries are those before and the new one, lists stay sorted and prefix maxima correct; the old index is a value and unchanged |
| `NumIndex.Merge` | number.go:195-224 | merging recent entries into the sorted ones gives a sorted list of exactly both |
| `NumIndex.CollectRanges` | number.go:248-255 | scanning backwards until the prefix maximum is too small misses no interval that contains the number |
| `NumIndex.SearchLo` | number.go:272-283 | the number of entries whose lower bound lies before the number, or at it if wanted, found by bisection |
| `CidrIndex.Collect` | cidr.go:223-244 | exactly the leaves whose prefix contains the address, one lookup per distinct length |
| `CidrIndex.ContainsIsMask` | cidr.go:179-189 | a masked prefix contains an address exactly if the masked address equals it |
| `ValidRules.RuleAccepted` | normalize.go:64-126 | a rule is accepted exactly if it is valid: at most one condition with alternatives in a set, nested at most 32 deep, at most 1024 combinations, each of them non-empty and valid; the compiler builds one condition set for every combination |
| `ValidRules.AlternativesValid` | normalize.go:64-126 | alternatives of one condition each are a valid rule exactly if there are at most 1024 and each condition is valid |
| `ValidRules.NestValid` | normalize.go:64-126 | a condition inside of n nested alternatives is a valid rule exactly if n is at most 32 and the condition is valid |
| `ValidRules.PlainAccepted` | normalize.go:129-166 | conditions without alternatives are accepted exactly if each has a path and a valid pattern and none demands the absence of a property another condition is on |
| `ValidRules.PatternAccepted` | normalize.go:168-256 | patterns are accepted exactly if they are valid, at every depth of composition, and only `exists: false` becomes the absent expression |
| `ValidRules.WildcardValid` | normalize.go:182-193 | a wildcard, with or without escapes, is accepted exactly if its escapes are valid and no two stars follow each other |
| `ValidRules.BetweenMeaning` | normalize.go:287-325 | a valid between pattern matches exactly the values that are numbers which compare with both of its bounds |
| `NormalizeCorrect.RuleMeaning` | normalize.go:75-126 | the condition sets of a valid rule, each strictly sorted by path, hold in disjunction exactly if the nested rule holds naively, for every event |
| `NormalizeCorrect.RuleLimit` | normalize.go:64-69 | a valid rule has between 1 and 1024 condition sets |
| `NormalizeCorrect.SetsMeaning` | normalize.go:83-126 | the same at every nesting depth, with the conditions beside an alternative |
| `NormalizeCorrect.ConditionsMeaning` | normalize.go:129-166 | merging conditions on one path preserves the meaning and gives one condition per path, sorted |
| `NormalizeCorrect.PatternFaithful` | normalize.go:168-256 | the normalized expression is canonical and holds for the same values as the pattern, for present properties |
| `NormalizeCorrect.WildcardMeaning` | normalize.go:367-402 | the cheapest leaf chosen for a wildcard matches the same values as the wildcard |
| `NormalizeGood.RuleGood` | normalize.go:75-126 | every condition set of a valid rule is accepted by the trie: wildcards without two stars in a row, intervals that are not empty, prefixes in canonical text |
| `NormalizeLoops.Conditions` | normalize.go:129-166 | the loops over conditions compute the function the meaning is proved for |
| `NormalizeLoops.Sets` | normalize.go:83-126 | the loop over alternatives appends exactly the condition sets of the function, with the limit counted over all sets so far |
| `NormalizeLoops.FindAlternatives` | normalize.go:88-97 | finds the only condition with alternatives, and notices a second one |
| `Semantics.CombineMeaning` | normalize.go:410-432 | flattening, sorting and removing duplicates preserve the meaning of anyOf and allOf |
| `Semantics.NegateMeaning` | normalize.go:436-441 | negation means negation, and double negation cancels |
| `Expressions.ParseKeyInvertsKey` | normalize.go:443-490 | parsing the key of any canonical expression gives this expression back, for arbitrary bytes in leaves |
| `Expressions.KeyInjective` | normalize.go:49-55 | canonical expressions with the same key are equal |
| `Expressions.CombineCanonical` | normalize.go:410-432 | combining canonical operands gives a canonical expression |
| `Expressions.CombineAll` | normalize.go:410-432 | the loop that flattens and compacts computes the combination |
| `Glob.GlobMatch` | explain.go:196-216 | the greedy matcher accepts exactly the values some split over the stars fits, for every valid pattern |
| `Glob.LeftmostSuffices` | explain.go:196-216 | exchange argument: if the remaining parts fit anywhere, they fit after the leftmost occurrence |
| `Glob.AcceptsIsFits` | explain.go:196-216 | token-by-token acceptance agrees with the literal parts fitting in order |
| `Glob.SplitWildcard` | normalize.go:330-362 | splitting fails exactly for invalid escapes and two stars in a row, and otherwise gives the literal parts of the tokens |
| `SpanTables.Reset` | engine.go:475-515 | for every path some condition refers to, wildcard paths included, the span holds exactly the folded values the naive evaluation looks at, in event order; for every hash function |
| `SpanTables.SpanTable.Find` | engine.go:609-620 | finds the span of a path exactly if it has one; probing ends because a slot stays empty |
| `SpanTables.SpanTable.AddDirect` | engine.go:492-505 | the values are added to the span of the path, all others are unchanged, also without a load check |
| `SpanTables.SpanTable.JsonSpan` | matchjson.go:161-177 | the span of the path, new or old, in a table that is at least half empty after a new one |
| `SpanTables.SpanTable.AddWild` | engine.go:519-539 | the values are added once to every wildcard path the property is below, except its own path |
| `SpanTables.AddProperty` | engine.go:485-509 | direct and checked insertions together leave an empty slot for all properties of the event |
| `SpanTables.GatheredIsValuesAt` | explain.go:85-95 | what is gathered for a path is what the naive evaluation finds at it |
| `SpanTables.FoldSpan` | engine.go:692-703 | following the links folds exactly the values of the span, in order |
| `SpanIndex.Rehash` | matchjson.go:180-191 | the larger table holds the same spans, each where probing finds it |
| `StrMap.StrMap.Get` | concurrent.go:166-191 | the value the map holds for the key, for any hash function |
| `StrMap.StrMap.Put` | concurrent.go:207-230 | the map is updated at this key only; a table some reader holds only gains keys in empty slots |
| `StrMap.StrMap.Grow` | concurrent.go:233-249 | a fresh table with the same contents and room for one more key |
| `Probing.ReaderFindsKey` | concurrent.go:180-191 | a reader that probes while the writer keeps storing finds every key that was there when it started |
| `Probing.ReaderEnds` | concurrent.go:180-191 | while the writer keeps storing, a reader that probes for any key reads an empty slot or the key within as many steps as there are slots |
| `Probing.ReaderMissesKey` | concurrent.go:180-191 | a key that is in none of the tables it reads is not found, and it stops at an empty slot |
| `Probing.EmptyMeansAbsent` | concurrent.go:180-191 | probing that ends at an empty slot proves the key absent |
| `Probing.LoadLeavesEmpty` | concurrent.go:207-215 | fewer used slots than slots leave one empty, so probing ends |
| `ByteMap.Put` | concurrent.go:284-302 | the map from bytes is updated at this byte only |
| `ByteMap.RankCounts` | concurrent.go:266-269 | the rank of a byte is the number of present bytes below it |
| `ByteMap.CountBases` | concurrent.go:298-300 | the recomputed counts fit a byte |
| `ByteMap.EmptyHasNothing` | concurrent.go:271-281 | the table without words is valid and has no byte, so that every map built by `Put` is valid |
| `ReplaceProtocol.NextKeeps` | hypermatch.go:125-148 | every atomic step of the writer and of the reader keeps the invariant |
| `ReplaceProtocol.CallIsAtomic` | hypermatch.go:125-148 | in every run, at every point of its traversal a call sees exactly the numbers that were current when it loaded the version, and the first number of identifiers added since |
| `ReplaceProtocol.ExactlyOne` | hypermatch.go:91-95 | a call sees exactly one number of every chain of replacements it knows, at the order key of the chain, also across later replacements and growth of the metadata |
| `ReplaceProtocol.SeesCurrent` | concurrent.go:93-142 | however old the metadata array a reader holds is, it answers as the current one does at the version of the reader |
| `ReplaceProtocol.CanReplace` | hypermatch.go:118-148 | from every state of every run between two calls of ReplaceRule, some steps replace any number that is not replaced yet and publish the next version, whatever the call has loaded by then |
| `ReplaceProtocol.SeenIsInserted` | hypermatch.go:135-146 | a number ReplaceRule created is visible only when all its condition sets are in the trie |
| `ReplaceProtocol.PastIsStable` | hypermatch.go:320-331 | no step changes what is current at a version already published |
| `NegationProtocol.NextKeeps` | engine.go:684-705 | every atomic step of adding a condition and of evaluating a group keeps the invariant |
| `NegationProtocol.FollowsExactly` | engine.go:684-813 | at every interleaving, what is followed holds for all leaves that match, and every condition complete before the evaluation is followed if it holds |
| `NegationProtocol.RunFollowsExactly` | engine.go:684-813 | the same for every run |
| `NegationProtocol.CanComplete` | engine.go:272-316 | from every state between two calls of follow, some steps add any new condition, with the next position for a negation, and publish it, whatever the evaluation has loaded by then |
| `NegationProtocol.RefutedExactly` | engine.go:299-315 | a loaded negation is marked exactly if one of its leaves matches, because it was published after its registrations |
| `NegationProtocol.CandidateSound` | engine.go:743-761 | a negation that was not loaded is never followed, even if it is found at a leaf |
| `NegationProtocol.CompiledIsGood` | engine.go:289-316 | the edges conditions compile to satisfy what the protocol assumes of edges |
| `Lookups.OfMatchGood` | engine.go:475-539 | the lookups of Match gather the values of its event; every dot of a path is looked up before its value, and no object is entered |
| `Lookups.OfMatchJsonGood` | matchjson.go:228-365 | the lookups of MatchJSON gather the values of the flattened object; each is inside of the objects and keys it belongs to, and what is open stays open until it is closed for good |
| `PathProtocol.NextKeeps` | engine.go:46-61 | every atomic step of AddRule, ReplaceRule and a call that gathers values keeps the invariant: prefixes are stored before wildcard paths and these before paths, rules are complete only when their paths are known, and what a call has found stays there |
| `PathProtocol.DoneExact` | engine.go:475-539 | rules that were complete when the call loaded the version are followed exactly if they hold, whatever the writer does meanwhile |
| `PathProtocol.ReplacedExact` | hypermatch.go:125-148 | in every run, the condition sets a visible number was made with by ReplaceRule are followed exactly if they hold: their paths were known when its version was published |
| `PathProtocol.PositiveNeverWrong` | engine.go:289-298 | in every run, a condition without negation that needs the property to be present is followed only if it holds |
| `PathProtocol.DirectNeverWrong` | engine.go:475-503 | in every run, Match follows a condition on a path without a wildcard only if it holds |
| `LatePaths.LateExact` | matchjson.go:473-532 | in every run, whatever is followed, however late it was added: there is one lookup from which on the wildcard table of the call is old, and each condition is evaluated on exactly the values that are found if its path becomes known before some lookup, in the table of the call only before it is old |
| `LateRuns.GoesWrongIff` | hypermatch.go:63-93 | a call can report an identifier none of whose rules holds by following a condition set exactly if the set does not hold, and there is such a lookup and such a time for each of its paths, so that every condition holds for what is found |
| `LateRuns.CanHoldOne` | hypermatch.go:63-93 | for a single condition any time will do, before or after the table is old |
| `LateRuns.SafeNeverWrong` | hypermatch.go:63-93 | this never happens for rules without negations and `exists: false`, nor in Match for rules without wildcard paths |
| `LateRuns.AbsentGoesWrong` | engine.go:324-337 | for MatchJSON it does happen with `exists: false`, for an event that has the property |
| `LateRuns.WildcardGoesWrong` | engine.go:513-538 | for Match it does happen with `anythingBut` on a wildcard path, for an event that has the excluded value below it |
| `LateRuns.StarKeyGoesWrong` | matchjson.go:370-384 | for MatchJSON it does happen with a key `*`, whose path is found although the wildcard path is not open, so that the excluded value beside it is missed |
| `AtomicMatch.NextKeeps` | hypermatch.go:118-148 | every step of both protocols together keeps the invariant that relates numbers, versions and the rules as they were given |
| `AtomicMatch.MatchIsAtomic` | hypermatch.go:91-95 | in every run in which only ReplaceRule runs during a call, the call returns the naive matches, in order, of the rules as they were when it loaded the version |
| `RemoveProtocol.TableNextKeeps` | hypermatch.go:164-183 | every step of RemoveRule, AddRule and ReplaceRule and of a call keeps the invariant: a removed number is the last one of its chain, and an identifier has at most one chain that is not dead |
| `RemoveProtocol.RemovedUnseen` | hypermatch.go:156-159 | a call that begins when an identifier is not present never reports it, unless under numbers of chains that were begun since |
| `RemoveProtocol.TwiceIff` | hypermatch.go:321-331 | a call reports an identifier twice exactly if it sees the identifier as added again, and the number that was removed before had replaced another one only after the call loaded the version |
| `RemoveProtocol.TwiceHappens` | hypermatch.go:321-331 | this does happen, in a table of any size; with eight identifiers or more, without a compaction in between |
| `RemoveProtocol.SystemNextKeeps` | hypermatch.go:213-245 | with the steps of compaction, the invariant holds for the current table and for all older ones |
| `RemoveProtocol.OldTableStays` | hypermatch.go:278-290 | a table that was replaced by a compacted one does not change any more under a call that holds it |
| `RemoveProtocol.CompactKeepsPresent` | hypermatch.go:213-245 | the compacted table has exactly the identifiers that are present |
| `RemoveProtocol.CanCompact` | hypermatch.go:213-245 | the table can be compacted between any two writes to it, whatever the call has loaded, and the call keeps its table |
| `JsonText.Lex` | matchjson.go:214-223 | the tokens of a text are found exactly if it has any, and a text has at most one sequence of tokens, each given by its bytes, with any white space between them |
| `JsonText.TokenIs` | matchjson.go:228-266 | a text starts with at most one token, whose kind its first byte shows |
| `JsonText.ItemIs` | matchjson.go:534-604 | the characters and escapes of a string, given by their bytes, have the length the scan finds |
| `JsonText.SpacesAre` | matchjson.go:214-223 | white space is the bytes 32, 9, 10 and 13, and the scan skips all of it |
| `JsonText.NumberLengthIs` | matchjson.go:414-449 | a number of JSON has the length the scan finds, whatever follows that cannot continue it |
| `JsonText.NumberFound` | matchjson.go:414-449 | what the scan finds is a number: no plus sign, no leading zeros, digits on both sides of the point and in the exponent |
| `JsonText.ContentIs` | matchjson.go:534-604 | the content of a string, of characters and valid escapes, ends at the first quote that is not escaped |
| `JsonText.ContentFound` | matchjson.go:534-604 | what is read up to that quote is such content |
| `JsonText.ReadContent` | matchjson.go:534-604 | the loop over the string finds that quote, or fails if there is none or a control character or an invalid escape comes before |
| `JsonText.ReadNumber` | matchjson.go:414-457 | the branches over the bytes of a number find its end, or fail |
| `JsonGrammar.ParsePrinted` | matchjson.go:228-266 | the reference grammar accepts every printed value within the nesting limit and returns it |
| `JsonGrammar.PrintParsed` | matchjson.go:228-266 | it accepts nothing else: what it parsed prints to the tokens it consumed |
| `JsonRecords.Prunable` | matchjson.go:238 | below an object that is no prefix of a rule path and below no open wildcard, no condition refers to anything |
| `JsonRecords.TargetsRefer` | matchjson.go:519-532 | the paths a value is recorded for are exactly those conditions on which look at it |
| `MatchJson.JsonParser.Record` | matchjson.go:519-532 | the value is recorded once for its own path and for each open wildcard path |
| `MatchJson.JsonParser.OpenWilds` | matchjson.go:485-501 | exactly the wildcard paths the new path is below are open, each once |
| `MatchJson.JsonParser.Value` | matchjson.go:228-266 | accepts exactly what the grammar of tokens accepts, and for every path of a condition records exactly the values of the flattened value, in order |
| `MatchJson.JsonParser.Object` | matchjson.go:270-337 | the same for objects, whose recording flag may be off only if nothing below is referred to; the open wildcards are restored |
| `MatchJson.JsonParser.Array` | matchjson.go:340-365 | the same for arrays, whose elements share a path |
| `MatchJson.JsonParser.Event` | matchjson.go:105-131 | accepts exactly a single object and records its flattened values |
| `MatchJson.EventsArePrinted` | matchjson.go:105-131 | the accepted token sequences are exactly the printed objects within the nesting limit |
| `JsonGroups.Group` | matchjson.go:134-157 | counting, offsets and filling put exactly the values of each span into its range, in order |
| `JsonGroups.ResetJson` | matchjson.go:105-131 | the spans are those of the flattened event for every path of a condition, and every span has a value |
| `ParseNumber.Parse` | number.go:23-102 | accepts exactly the texts of the number grammar, of which a text spells at most one number, and computes the outcome of that number: the fast path with its sign and operands, or the slow path; the outcome is negative exactly if the text begins with a minus sign |
| `ParseNumber.FastOperands` | number.go:71-96 | on the fast path the mantissa is exact and below 10 to the 15th, the exponent at most 22 in size unless the mantissa is 0, and the sign that of the text |
| `Decimal.DigitsMean` | number.go:76-85 | digits are the bytes 48 to 57; the last one counts its distance from 48, those before it ten times what they count without it |
| `ParseNumber.FastExact` | number.go:58-96 | the fast path reads a number, with its sign, as written exactly if it has at most 15 significant digits and is 0 or has an exponent of less than 7 significant digits and a scale from -22 to 22; it reads a number as another one exactly if the exponent is longer, not negative, and its first six digits less the fraction digits are from -22 to 22 |
| `ParseNumber.SaturatedIs` | number.go:58-62 | the loop over the exponent digits ends with the number of the first six digits after leading zeros, however many follow |
| `ParseNumber.ShortFractionsExact` | number.go:58-96 | with fewer than 99978 fraction digits the fast path never reads a number as another one |
| `ParseNumber.LongFractionInexact` | number.go:58-96 | with 99978 fraction digits it can: a concrete number of size 10 to the 900022nd is read as 10 to the 22nd |
| `IPv4.Parse` | cidr.go:56-81 | accepts exactly four numbers from 0 to 255 without leading zeros, and undoes printing: for every address with this text it returns the bytes of that address |
| `IPv4.AddressUnique` | cidr.go:56-81 | a text is that of one address at most |
| `IPv6.Parse` | cidr.go:86-149 | accepts exactly the text forms of section 2.2 of RFC 4291 and undoes printing: for every form with this text it returns the 16 bytes of that form |
| `IPv6.SpellsUnique` | cidr.go:86-149 | a text is that of one form at most |
| `IPv6.HexTextNumber` | cidr.go:150-162 | a text of hex digits, each given as its byte and with letters in either case, is read as the number it is in base 16, and no other text is one |
| `IPv6.PrintedFull` | cidr.go:82-85 | eight groups of one to four hex digits in either case that print 16 bytes are a valid form of this address, and every address has them |
| `IPv6.PrintedGapped` | cidr.go:82-85 | groups that print the bytes before and after any groups of zeros are a valid form of this address with `::` in the place of the zeros |
| `IPv6.TrackPart` | cidr.go:92-121 | in any form with this rest, the hex digits at its start are the next group, or begin an IPv4 address |
| `IPv6.FinalForm` | cidr.go:139-148 | the number of bytes read decides validity, and spreading them around the gap gives the address |

## Left out

- Case folding, UTF-8 and the conversion of decimal text to float64 are parameters (`Rules.World`); float64 values are ordered like reals with two infinities, without NaN and without rounding.
- `parseNumber`, `parseIPv4` and `parseIPv6` are proved in modules of their own (`ParseNumber`, `IPv4`, `IPv6`) and not plugged into `Rules.World`; IPv4-mapped addresses, zones and the text form of prefixes from net/netip are not part of this model.
- ParseNumber.Parse: ends with the operands of the fast path; the float64 operation on them and `strconv.ParseFloat` on the slow path are not modelled.
- ReplaceProtocol.CallIsAtomic: one call and one writer, with sequentially consistent steps; growing the backing array of `list` is not a step of it, and copying the words of a grown array is one step. RemoveRule and compaction are steps of `RemoveProtocol` instead.
- NegationProtocol.FollowsExactly: one group and one evaluation of it, on values that are already gathered (gathering them is in `PathProtocol`); the value index is reduced to which leaves are published under which kind, since `ValueIndex.Collect` covers how it finds them.
- LateRuns.GoesWrongIff: how full a table of wildcard paths is when it grows is not modelled: it may grow whenever a wildcard path is added, which other rules can bring about. The tables of paths and prefixes grow between two lookups, each of which loads them anew. Tables of compacted copies are not part of it: no rule is added to the table a call holds after that.
- AtomicMatch.MatchIsAtomic: RemoveRule and AddRule do not run during the call; what they can do to it is stated by `RemoveProtocol` and `LateRuns`.
- RemoveProtocol.TwiceIff: identifiers are numbered, and when compaction is due is not a condition of its step.
- HyperMatches.HyperMatch.Match: the class is sequential; what concurrent calls see is covered by the protocols only.
- HyperMatches.HyperMatch.MatchJson: what the escapes and the bytes of a string stand for, with the repair of invalid UTF-8, is a function of its content; all tokens are found before they are parsed instead of one at a time, and the path buffer is a value instead of a reused byte slice.
- HyperMatches.HyperMatch.AddRule: identifiers of types whose values may not be comparable, the limit of 2^32-1 rules, and error texts are not modelled; an error is just a failed call.
- StrMap.StrMap.Put: hashes are recomputed instead of stored with the entries; the maps inside groups and the wildcard trie are plain maps, so `StrMap` and `ByteMap` stand beside them.
- ByteMap.Put: words are sequences of 64 booleans, and the copy-on-write of the table is a new value.
- GlobTrie.Insert: nodes are numbered in a sequence; allocation, and publishing single nodes to concurrent readers, is not modelled.
- NumIndex.Add: an index is a value, so that older versions stay unchanged holds by construction.
- Walks.FindSpan: looks for a path in the list of spans; `SpanTables.SpanTable.Find` proves the hashed lookup on its own.
- SpanTables.Reset: folds the values of all spans at once instead of when a group first needs them.
- Tries.Trie.Follow: the lookup table of a group holds leaf numbers and edges in two maps instead of one map from keys to either.
- Results.ResultNumbers: sorts with a stable sorting function; the code sorts unstably, which makes no difference because no two keys are equal (`Results.VisibleOrdersDiffer`).
- The limits of 2^24 marked negations and 2^40 edges, which share one 64-bit word in the code, are not modelled: the model has two unbounded numbers.
- Bit set words and their growth, pooled buffers and their reuse are not modelled; bit sets are sets.
- `Explain` and `ExplainJSON` beyond whether a rule matches (which values matched, and the report text), the JSON form of rules, and the shorthand constructors.
