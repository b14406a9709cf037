# Derivation memory of a defeasible logic engine

This project models the `Memory` class of a defeasible logic programming
engine (`src/main/python/defeasible/domain/memory.py`). It then proves
properties of that model.

`Memory` is built once from a ground program. Its constructor indexes the
rules into three views:

- the set of facts (rules with an empty body);
- all rules by head (`_defeasibles`);
- the strict rules by head (`_stricts`).

`derive(literal, mode)` then lists every way the literal can be proved by
chaining rule bodies back to facts. The answer is one of:

- a raised `NotGroundLiteralException` when the literal is not ground;
- `None` when there are no facts at all, or no rule in the selected view
  concludes the literal;
- a list of derivations, possibly empty.

Each derivation is an ordered, duplicate-free sequence of literals. For
each matching rule, the body literals are resolved left to right, always in
DEFEASIBLE mode. The derivations found so far are cross-merged with those of
the next literal: a partial is extended by the literals of a sub-derivation
it does not yet hold, and empty or repeated candidates are dropped. A body
literal with `None` gives up the rule. Every surviving partial gets the
rule's head appended unless it already holds it.

Files:

- `definitions.dfy` (module `Definitions`): terms, literals, rule types and
  rules, with the ground test and the fact test.
- `merge.dfy` (module `Merge`): the cross-merge as functions.
  - `Extend` copies a partial and appends the new literals of a
    sub-derivation.
  - `Distinct` keeps the non-empty candidates, each once.
  - `CrossMerge` is the whole step.
- `engine.dfy` (module `Engine`): what `derive` computes, as functions over
  the value of the index (`RuleIndex`). There are four mutually recursive
  functions:
  - `Derivations` is one query;
  - `RuleResults` covers the matching rules, in order;
  - `Contribution` is what one rule adds;
  - `BodyPartials` is the working set after a prefix of a body.

  The module also holds the lemmas about them.
- `memory.dfy` (module `DerivationMemory`): the class `Memory`.
  - Its constructor fills the three fields in a loop over the rules.
  - Its methods `Derive` and `Contribute` run the nested loops of `derive`.
  - The helper methods `MergeStep`, `AppendNew` and `AppendHead` are the
    inner loops.
  - Each method is proved equal to the function that specifies it.
- `scenarios.dfy` (module `Scenarios`): small programs whose answers the
  model is proved to give. On a cyclic program the search only ever runs
  out of fuel. A second program shows that a STRICT query resolves its
  body literals in DEFEASIBLE mode. A third, `f.  f -< f.`, shows that a
  fact need not derive itself in DEFEASIBLE mode: the rule that needs `f`
  makes that query raise.

The search takes a `fuel` argument: the number of nested body-literal
lookups it may still make. When fuel runs out it fails with
`FuelExhausted`. This stands for the `RecursionError` that CPython raises
once the nested `derive` calls (line 44) reach the interpreter's recursion
limit, which is 1000 frames by default. The caller picks the depth instead
of the interpreter. `DerivationsFuel` proves that the bound never changes an
answer that was reached: more fuel gives the same result.
`CycleExhaustsFuel` shows a program on which every amount of fuel runs out.
On that program the Python code raises `RecursionError`.

## Model

All source paths are `src/main/python/defeasible/domain/memory.py`.

| member | source | states |
|---|---|---|
| DerivationMemory.Memory.constructor | src/main/python/defeasible/domain/memory.py:16-27 | after one pass over the program's rules, the three fields equal `IndexOf(rules)` and satisfy `Valid()`, that is they index the program |
| DerivationMemory.IndexOfIndexes | src/main/python/defeasible/domain/memory.py:19-27 | the views built from a program index it: the facts are exactly its bodiless rules; every rule is listed under its head in the full view; exactly the strict rules are listed in the strict view; every listed rule has the head it is listed under; no entry is empty or repeats a rule |
| DerivationMemory.IndexStep | src/main/python/defeasible/domain/memory.py:22-27 | one more rule, added to all three views as the loop body adds it, keeps the views an index of the rules seen so far |
| DerivationMemory.FactsStep | src/main/python/defeasible/domain/memory.py:23-24 | adding a rule to the facts exactly when it is a fact keeps the facts equal to the bodiless rules seen so far |
| DerivationMemory.ByHeadStep | src/main/python/defeasible/domain/memory.py:25-27 | adding a rule under its head when the view admits it keeps that view an index of the rules seen so far |
| DerivationMemory.AddUnderHead | src/main/python/defeasible/domain/memory.py:25-27 | `setdefault(rule.head, set()).add(rule)` on one view: afterwards the head has an entry and the rule is in it; `AddUnderHeadEntries` states the rest |
| DerivationMemory.AddRule | src/main/python/defeasible/domain/memory.py:23-27 | one turn of the constructor's loop: a fact is among the facts afterwards, the rule is listed under its head in the full view, and in the strict view too when it is strict; `IndexStep` proves the turn keeps the views an index |
| DerivationMemory.IndexOf | src/main/python/defeasible/domain/memory.py:22-27 | the three views after the loop has gone over the rules, one `AddRule` per rule in order; `IndexOfIndexes` proves it satisfies `Indexes`, and the constructor is proved to build it |
| DerivationMemory.AddUnderHeadEntries | src/main/python/defeasible/domain/memory.py:25 | `setdefault(head, set()).add(rule)`: the head gets an entry; the entry holds the rule and its old rules, still without repeats; every other head is untouched |
| DerivationMemory.Memory.Derive | src/main/python/defeasible/domain/memory.py:29-66 | the method returns exactly `Engine.Derivations` of the object's index, so every lemma about `Derivations` holds of it |
| DerivationMemory.Memory.Contribute | src/main/python/defeasible/domain/memory.py:41-64 | the body loop with its `complete` flag and the completion loop of one rule return exactly `Engine.Contribution` |
| DerivationMemory.MergeStep | src/main/python/defeasible/domain/memory.py:49-58 | the nested loops over partials and sub-derivations build exactly `Merge.CrossMerge` |
| DerivationMemory.AppendNew | src/main/python/defeasible/domain/memory.py:52-55 | copying a partial and appending each literal of a sub-derivation it lacks gives exactly `Merge.Extend` |
| DerivationMemory.AppendHead | src/main/python/defeasible/domain/memory.py:61-64 | the completion loop gives exactly `Engine.WithHead`: each partial with the head added once |
| Merge.Extend | src/main/python/defeasible/domain/memory.py:52-55 | the merged derivation starts with the old partial; it holds exactly the literals of the partial and of the sub-derivation; it has no repeats when the partial has none |
| Merge.ExtendAppendsFresh | src/main/python/defeasible/domain/memory.py:52-55 | a merge is the old partial followed by the literals of the sub-derivation not in the partial, each at its first occurrence and in its original order (`Fresh`) |
| Merge.FreshOfNoDup | src/main/python/defeasible/domain/memory.py:52-55 | merging a duplicate-free derivation into an empty partial copies it whole |
| Merge.Row | src/main/python/defeasible/domain/memory.py:51-55 | the candidates built from one partial, one per sub-derivation in order: as many as the sub-derivations, the k-th being the partial extended by the k-th sub-derivation |
| Merge.Candidates | src/main/python/defeasible/domain/memory.py:50-55 | every candidate of the two nested loops, partial by partial and within a partial sub-derivation by sub-derivation; `CandidatesLength` gives one per pair and `CandidatesMembers` exactly the merges of a pair |
| Merge.InnerStep | src/main/python/defeasible/domain/memory.py:56-57 | one turn of the keep-if-new test: the next candidate is appended to the kept list exactly when it is non-empty and not yet kept, otherwise the kept list is unchanged |
| Merge.Distinct | src/main/python/defeasible/domain/memory.py:56-57 | the kept candidates have no repeats; they are exactly the non-empty candidates; there are at most as many as candidates |
| Merge.CandidatesMembers | src/main/python/defeasible/domain/memory.py:50-55 | the candidates of the nested loops are exactly the merges of a partial with a sub-derivation |
| Merge.CandidatesLength | src/main/python/defeasible/domain/memory.py:50-51 | the nested loops produce one candidate for each pair of a partial and a sub-derivation |
| Merge.CrossMerge | src/main/python/defeasible/domain/memory.py:49-58 | the new working set has no repeated and no empty derivation; each of its derivations is duplicate-free when the old partials are |
| Merge.CrossMergeMembers | src/main/python/defeasible/domain/memory.py:49-58 | a derivation is in the new working set if and only if it is non-empty and is a merge of some partial with some sub-derivation |
| Merge.CrossMergeBound | src/main/python/defeasible/domain/memory.py:49-58 | the new working set has at most one element per pair of a partial and a sub-derivation; no partials, or a body literal with the empty list, empties it |
| Merge.FirstLiteralMerge | src/main/python/defeasible/domain/memory.py:42-58 | merging the first body literal into the single empty partial yields only derivations of that literal, at most as many as it has |
| Engine.AddHead | src/main/python/defeasible/domain/memory.py:62-63 | the completed derivation holds the head and exactly the old literals besides; the old order is kept as a prefix; no repeats appear |
| Engine.RuleIndex.Select | src/main/python/defeasible/domain/memory.py:36-40 | the view a query is matched against: the full view in DEFEASIBLE mode, the strict view in STRICT mode; `StrictsWithinDefeasibles` proves the second is part of the first |
| Engine.WithHead | src/main/python/defeasible/domain/memory.py:61-64 | the completion loop: one result per surviving partial, in order, each being the partial with the head appended when it lacked it (`AddHead`) |
| Engine.Derivations | src/main/python/defeasible/domain/memory.py:29-66 | a NotGroundLiteral failure names a non-ground literal; every derivation returned is non-empty and duplicate-free |
| Engine.RuleResults | src/main/python/defeasible/domain/memory.py:39-66 | every result of the matching rules is non-empty and duplicate-free; a NotGroundLiteral failure names a non-ground literal |
| Engine.Contribution | src/main/python/defeasible/domain/memory.py:41-64 | every derivation a rule contributes holds the rule's head and has no repeats |
| Engine.BodyPartials | src/main/python/defeasible/domain/memory.py:42-58 | every partial in the working set has no repeats |
| Engine.IndexesAreKeyed | src/main/python/defeasible/domain/memory.py:25-27 | in an index, every rule listed under a key has that key as its head, in both views |
| Engine.StrictsWithinDefeasibles | src/main/python/defeasible/domain/memory.py:25-27 | every key of the strict view is a key of the full view, and each strict entry's rules are in the full entry |
| Engine.ListedRule | src/main/python/defeasible/domain/memory.py:25-27 | a rule listed under `h` in a view is a rule of the program with head `h` that the view's mode admits |
| Engine.NotGroundIff | src/main/python/defeasible/domain/memory.py:30-31 | a query fails with NotGroundLiteral for the queried literal if and only if that literal is not ground, before any other check |
| Engine.NoFactsNothingProvable | src/main/python/defeasible/domain/memory.py:33-34 | with no fact in the program, every ground query returns `None`, whatever rules exist |
| Engine.UnprovableIff | src/main/python/defeasible/domain/memory.py:33-37 | `None` is returned if and only if the literal is ground and either there are no facts or the selected view has no entry for it |
| Engine.EmptyContributions | src/main/python/defeasible/domain/memory.py:39-66 | rules that each contribute nothing give the empty list of results |
| Engine.NoRuleCompletes | src/main/python/defeasible/domain/memory.py:39-66 | when rules match but none completes, the answer is the empty list, not `None` |
| Engine.BodyPrefixDecides | src/main/python/defeasible/domain/memory.py:43-47 | once a body prefix has given up or raised, the later body literals are never looked at: the whole body has the prefix's outcome |
| Engine.BodyGivesUp | src/main/python/defeasible/domain/memory.py:44-47 | a body literal answered with `None` gives up the whole body |
| Engine.BodyRaises | src/main/python/defeasible/domain/memory.py:43-44 | a body literal that raises, or finds no fuel left, makes the whole body raise the same error |
| Engine.ContributionRaises | src/main/python/defeasible/domain/memory.py:43-44 | a body that raises makes its rule raise the same error |
| Engine.AbandonedContributesNothing | src/main/python/defeasible/domain/memory.py:45-47 | a rule whose body was given up contributes nothing |
| Engine.ContributionCompletes | src/main/python/defeasible/domain/memory.py:60-64 | a body that went through contributes each surviving partial with the head added |
| Engine.EmptyStaysEmpty | src/main/python/defeasible/domain/memory.py:43-58 | once the working set is empty it stays empty: the body ends raised, given up or with the empty working set, never with a partial to complete (that a later literal can still raise is `BodyRaises`, which holds for an empty working set too) |
| Engine.FactContribution | src/main/python/defeasible/domain/memory.py:42-64 | a fact `F.` contributes exactly the one derivation `[F]` |
| Engine.BodyStep | src/main/python/defeasible/domain/memory.py:44-58 | a body literal with derivations `ps` turns the working set into its cross-merge with `ps` |
| Engine.TwoLiteralRule | src/main/python/defeasible/domain/memory.py:42-64 | a rule `h <- b1, b2` contributes at most one derivation per pair of derivations of b1 and b2; each is a derivation of b1, extended by the new literals of one of b2, with `h` added once |
| Engine.ResultsAreContributions | src/main/python/defeasible/domain/memory.py:39-64 | when the results go through, every matching rule went through; every derivation a rule contributes is in the results; every result was contributed by some rule |
| Engine.ResultsConcat | src/main/python/defeasible/domain/memory.py:39-64 | the results of two runs of rules, one after the other, are the two result lists concatenated, with no deduplication across rules |
| Engine.RuleRaises | src/main/python/defeasible/domain/memory.py:40-44 | a rule that raises makes the whole query raise the same error |
| Engine.ResultsPrefixFails | src/main/python/defeasible/domain/memory.py:40-44 | once a rule has raised, later rules are not tried |
| Engine.StrictModeUsesStrictRules | src/main/python/defeasible/domain/memory.py:36-40 | in STRICT mode every derivation is contributed by a strict rule of the program for the queried literal |
| Engine.StrictWithinDefeasible | src/main/python/defeasible/domain/memory.py:36-44 | body literals are resolved in DEFEASIBLE mode whatever the query's mode, so when the DEFEASIBLE query for the same literal does not raise, every STRICT-mode derivation is also one of its derivations |
| Engine.FactDerivesItself | src/main/python/defeasible/domain/memory.py:36-64 | when the query does not raise, a ground fact of the program has `[F]` among its derivations in DEFEASIBLE mode, and in STRICT mode too when the fact is strict |
| Engine.DerivationsSound | src/main/python/defeasible/domain/memory.py:29-66 | every derivation of a literal contains that literal; every literal in it is ground and is the head of some rule |
| Engine.ResultsSound | src/main/python/defeasible/domain/memory.py:39-64 | every result of rules for a ground head contains the head, and all of its literals are ground heads of rules |
| Engine.ContributionSound | src/main/python/defeasible/domain/memory.py:41-64 | every derivation a rule contributes contains its head, and its other literals are ground heads of rules |
| Engine.BodySound | src/main/python/defeasible/domain/memory.py:43-58 | every partial of a body's working set consists of ground heads of rules |
| Engine.GroundedCrossMerge | src/main/python/defeasible/domain/memory.py:49-58 | merging partials and sub-derivations made of ground heads of rules yields only such derivations |
| Engine.DerivationsFuel | src/main/python/defeasible/domain/memory.py:29-66 | an answer reached with some fuel, anything but FuelExhausted, is the answer with any larger fuel |
| Engine.ResultsFuel | src/main/python/defeasible/domain/memory.py:39-66 | the same for the results of a list of rules |
| Engine.ContributionFuel | src/main/python/defeasible/domain/memory.py:41-64 | the same for one rule's contribution |
| Engine.BodyFuel | src/main/python/defeasible/domain/memory.py:43-58 | the same for a body's working set |
| Scenarios.CycleExhaustsFuel | src/main/python/defeasible/domain/memory.py:43-44 | for `a -< b. b -< a. c.`, querying `a` or `b` runs out of fuel whatever the fuel, because `derive` has no cycle check; the Python code raises `RecursionError` there |
| Scenarios.StrictQueryUsesDefeasibleBody | src/main/python/defeasible/domain/memory.py:36-44 | for `a <- b. b -< c. c.`, a STRICT query for `a` gives exactly `[[c, b, a]]`, because the body literal `b` is resolved in DEFEASIBLE mode, while a STRICT query for `b` gives `None` |
| Scenarios.FactWithSelfLoop | src/main/python/defeasible/domain/memory.py:40-44 | for `f.  f -< f.`, a STRICT query for `f` gives `[[f]]`, while a DEFEASIBLE query raises at every fuel, because after the fact the rule `f -< f` asks for `f` again; the Python code raises `RecursionError` there whatever the order of the set |

## Left out

- The demo block at lines 69-119 is not modelled. It parses a program
  written inline as a string literal, prints the rendered results, and
  holds commented-out argument handling. All of this is parsing and I/O.
- Grounding (`program.get_ground_program()`, line 22) is not modelled.
  The constructor takes the sequence of rules of an already ground program.
- `definitions.py` is not part of this model. A literal is modelled as a
  possibly negated functor applied to constant or variable terms. Equality
  is structural, and a literal is ground when all of its terms are
  constants. The real `is_ground` may differ in detail. The engine only
  relies on it as a test.
- `OrderedLiteral` and `Trace` (lines 6-7) are not modelled; they are never
  used.
- Per-head rule sets become sequences. A rule is appended only if it is
  not already present, so they behave as sets. The model tries the rules
  of a head in insertion order. In Python, set iteration order is
  incidental. This affects the order of the results at every level, not
  only the order of different rules' contributions: a sub-query's results
  come in its own rules' order, and the cross-merge (lines 50-51) keeps
  that order. For `a <- b. b <- c. b <- d. c. d.`, the one rule of `a` may
  give `[[c, b, a], [d, b, a]]` or the reverse. Membership never depends on
  the order. Every lemma about the results is stated by membership or per
  rule, except `ResultsConcat`, which is about the fixed order of the
  model.
- The exception message of `NotGroundLiteralException` is not modelled.
  The model keeps only the literal it names.
- The model does not append the head in place (line 63). It builds new
  sequences instead. The lists that get the head are fresh: either the
  copies made at line 52, or, for a bodiless rule, the `[]` made at line
  42 for that rule. So no aliasing is observable.
- A fact does not guarantee an answer. When its head also has a rule that
  needs the head again, as in `f.  f -< f.`, the DEFEASIBLE query for it
  raises even though the fact alone derives it. So `FactDerivesItself` and
  `StrictWithinDefeasible` assume that the DEFEASIBLE query does not raise,
  and `Scenarios.FactWithSelfLoop` shows the case.
- Fuel replaces the interpreter's recursion limit. A search deeper than
  its fuel fails with `FuelExhausted`, where the Python code raises
  `RecursionError` at the interpreter's limit, for example on any cyclic
  program. `DerivationsFuel` bounds what this changes.
- The interpreter's fixed limit is not modelled. An acyclic chain of rules
  deeper than about 1000 nested lookups makes the Python code raise
  `RecursionError`. The model answers it when given enough fuel.
- `Derive` takes the fuel before the mode, so that the mode can keep its
  default of DEFEASIBLE (line 29) as the last parameter.
- There is no concurrency to model. The index is never changed after
  construction, and `Derive` and `Contribute` change nothing.
