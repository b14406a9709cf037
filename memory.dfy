/** The `Memory` class of memory.py: a rule index built once from a ground
    program, and the derivation search that reads it. */
module DerivationMemory {
  import opened Definitions
  import opened Merge
  import opened Engine

  /** `m.setdefault(rule.head, set()).add(rule)`: the head gets an entry if it
      had none, and the rule is added to it unless already there. */
  function AddUnderHead(m: map<Literal, seq<Rule>>, rule: Rule): (r: map<Literal, seq<Rule>>)
    ensures rule.head in r && rule in r[rule.head]
  {
    var entry := if rule.head in m then m[rule.head] else [];
    if rule in entry then m else m[rule.head := entry + [rule]]
  }

  /** The head has an entry afterwards; the entry holds the rule and what it
      held before, still without repeats; every other head is untouched. */
  lemma AddUnderHeadEntries(m: map<Literal, seq<Rule>>, rule: Rule)
    ensures AddUnderHead(m, rule).Keys == m.Keys + {rule.head}
    ensures forall h :: h in m && h != rule.head ==> AddUnderHead(m, rule)[h] == m[h]
    ensures forall r :: r in AddUnderHead(m, rule)[rule.head] <==> r == rule || (rule.head in m && r in m[rule.head])
    ensures (rule.head in m ==> NoDup(m[rule.head])) ==> NoDup(AddUnderHead(m, rule)[rule.head])
  {
  }

  /** Adding one more rule of the program to a view keeps it an index of
      the rules seen so far. */
  lemma ByHeadStep(m: map<Literal, seq<Rule>>, rules: seq<Rule>, mode: RuleType, rule: Rule)
    requires ByHead(m, rules, mode)
    ensures ByHead(if Admits(mode, rule) then AddUnderHead(m, rule) else m, rules + [rule], mode)
  {
    AddUnderHeadEntries(m, rule);
    var m' := if Admits(mode, rule) then AddUnderHead(m, rule) else m;
    var rules' := rules + [rule];
    forall r | r in rules' && Admits(mode, r) ensures r.head in m' && r in m'[r.head] {
      if r != rule {
        assert r in rules;
      }
    }
  }

  lemma FactsStep(facts: set<Rule>, rules: seq<Rule>, rule: Rule)
    requires FactsOf(facts, rules)
    ensures FactsOf(if rule.IsFact() then facts + {rule} else facts, rules + [rule])
  {
  }

  /** One rule of the program, added to all three views as the
      constructor's loop adds it. */
  function AddRule(ix: RuleIndex, rule: Rule): (r: RuleIndex)
    ensures rule.IsFact() ==> rule in r.facts
    ensures rule.head in r.defeasibles && rule in r.defeasibles[rule.head]
    ensures rule.kind == Strict ==> rule.head in r.stricts && rule in r.stricts[rule.head]
  {
    RuleIndex(
      if rule.IsFact() then ix.facts + {rule} else ix.facts,
      if rule.kind == Strict then AddUnderHead(ix.stricts, rule) else ix.stricts,
      AddUnderHead(ix.defeasibles, rule))
  }

  /** Adding the next rule of the program keeps the views an index of the
      rules seen so far. */
  lemma IndexStep(ix: RuleIndex, rules: seq<Rule>, rule: Rule)
    requires Indexes(ix, rules)
    ensures Indexes(AddRule(ix, rule), rules + [rule])
  {
    FactsStep(ix.facts, rules, rule);
    ByHeadStep(ix.defeasibles, rules, Defeasible, rule);
    ByHeadStep(ix.stricts, rules, Strict, rule);
  }

  /** The views after the constructor's loop has gone over `rules`. */
  function IndexOf(rules: seq<Rule>): RuleIndex
    decreases |rules|
  {
    if rules == [] then RuleIndex({}, map[], map[])
    else AddRule(IndexOf(rules[..|rules| - 1]), rules[|rules| - 1])
  }

  /** The views built from a program are an index of it: the facts are its
      bodiless rules, and every rule is listed once under its head, in the
      strict view only when strict. */
  lemma {:induction false} IndexOfIndexes(rules: seq<Rule>)
    ensures Indexes(IndexOf(rules), rules)
    decreases |rules|
  {
    if rules != [] {
      var rules' := rules[..|rules| - 1];
      IndexOfIndexes(rules');
      IndexStep(IndexOf(rules'), rules', rules[|rules| - 1]);
      assert rules' + [rules[|rules| - 1]] == rules;
    }
  }

  /** The inner loop of the cross-merge (memory.py, lines 52-55): copy the
      partial and append each literal of the sub-derivation not yet in it. */
  method AppendNew(derivation: Derivation, partial: Derivation) returns (current: Derivation)
    ensures current == Extend(derivation, partial)
  {
    current := derivation;
    var k := 0;
    while k < |partial|
      invariant 0 <= k <= |partial|
      invariant current == Extend(derivation, partial[..k])
    {
      assert partial[..k + 1][..k] == partial[..k];
      var value := partial[k];
      if value !in current {
        current := current + [value];
      }
      k := k + 1;
    }
    assert partial[..|partial|] == partial;
  }

  /** The cross-merge of memory.py, lines 49-58: every partial with every
      sub-derivation, keeping each non-empty result the first time it is
      produced. */
  method MergeStep(derivations: seq<Derivation>, partials: seq<Derivation>) returns (temporary: seq<Derivation>)
    ensures temporary == CrossMerge(derivations, partials)
  {
    temporary := [];
    var a := 0;
    while a < |derivations|
      invariant 0 <= a <= |derivations|
      invariant temporary == Distinct(Candidates(derivations[..a], partials))
    {
      var derivation := derivations[a];
      ghost var done := Candidates(derivations[..a], partials);
      var b := 0;
      assert done + Row(derivation, partials[..0]) == done;
      while b < |partials|
        invariant 0 <= b <= |partials|
        invariant temporary == Distinct(done + Row(derivation, partials[..b]))
      {
        var current := AppendNew(derivation, partials[b]);
        InnerStep(done, derivation, partials, b);
        if current != [] && current !in temporary {
          temporary := temporary + [current];
        }
        b := b + 1;
      }
      assert partials[..|partials|] == partials;
      CandidatesSnoc(derivations, partials, a);
      a := a + 1;
    }
    assert derivations[..|derivations|] == derivations;
  }

  /** The completion loop of memory.py, lines 61-64: the rule's head is
      appended to each surviving partial that lacks it. */
  method AppendHead(derivations: seq<Derivation>, head: Literal) returns (results: seq<Derivation>)
    ensures results == WithHead(derivations, head)
  {
    results := [];
    var k := 0;
    while k < |derivations|
      invariant 0 <= k <= |derivations|
      invariant results == WithHead(derivations[..k], head)
    {
      assert derivations[..k + 1][..k] == derivations[..k];
      var derivation := derivations[k];
      if head !in derivation {
        derivation := derivation + [head];
      }
      results := results + [derivation];
      k := k + 1;
    }
    assert derivations[..|derivations|] == derivations;
  }

  class Memory {
    /** The fact rules of the program. */
    var facts: set<Rule>
    /** The strict rules, by head. */
    var stricts: map<Literal, seq<Rule>>
    /** All rules, strict and defeasible, by head. */
    var defeasibles: map<Literal, seq<Rule>>
    /** The ground program the index was built from. */
    ghost var program: seq<Rule>

    function Index(): RuleIndex
      reads this
    {
      RuleIndex(facts, stricts, defeasibles)
    }

    /** The fields index the program: exactly the `Indexes(Index(), program)`
        hypothesis that Engine's index lemmas (StrictModeUsesStrictRules,
        StrictWithinDefeasible, FactDerivesItself) take, so each applies to
        the answers of `Derive` on a valid memory. */
    ghost predicate Valid()
      reads this
    {
      Indexes(Index(), program)
    }

    /** memory.py, lines 16-27: one pass over the rules of the ground program
        fills the three views. */
    constructor (rules: seq<Rule>)
      ensures program == rules
      ensures Index() == IndexOf(rules)
      ensures Valid()
    {
      facts, stricts, defeasibles := {}, map[], map[];
      program := rules;
      new;
      var i := 0;
      while i < |rules|
        invariant 0 <= i <= |rules|
        invariant program == rules
        invariant Index() == IndexOf(rules[..i])
      {
        var rule := rules[i];
        assert rules[..i + 1][..i] == rules[..i];
        if rule.IsFact() {
          facts := facts + {rule};
        }
        defeasibles := AddUnderHead(defeasibles, rule);
        if rule.kind == Strict {
          stricts := AddUnderHead(stricts, rule);
        }
        i := i + 1;
      }
      assert rules[..|rules|] == rules;
      IndexOfIndexes(rules);
    }

    /** memory.py, lines 29-66, with the fuel bound of Engine.Derivations;
        the mode defaults to DEFEASIBLE, as `type` does there. */
    method Derive(literal: Literal, fuel: nat, mode: RuleType := Defeasible) returns (r: Result<Outcome>)
      ensures r == Derivations(Index(), literal, mode, fuel)
      decreases fuel, 1
    {
      if !literal.IsGround() {
        return Fail(NotGroundLiteral(literal));
      }
      if facts == {} {
        return Ok(Unprovable);
      }
      var index := if mode == Defeasible then defeasibles else stricts;
      assert index == Index().Select(mode);
      if literal !in index {
        return Ok(Unprovable);
      }
      var rules := index[literal];
      var results: seq<Derivation> := [];
      var i := 0;
      while i < |rules|
        invariant 0 <= i <= |rules|
        invariant RuleResults(Index(), rules[..i], fuel) == Ok(results)
      {
        var contribution := Contribute(rules[i], fuel);
        if contribution.Fail? {
          RuleRaises(Index(), rules, i, results, fuel, contribution.error);
          return Fail(contribution.error);
        }
        assert rules[..i + 1][..i] == rules[..i];
        results := results + contribution.value;
        i := i + 1;
      }
      assert rules[..|rules|] == rules;
      return Ok(Provable(results));
    }

    /** The body of the loop over matching rules (memory.py, lines 41-64):
        resolve the body literals in order, merging as it goes, and complete
        every surviving partial with the rule's head. */
    method Contribute(rule: Rule, fuel: nat) returns (r: Result<seq<Derivation>>)
      ensures r == Contribution(Index(), rule, fuel)
      decreases fuel, 0
    {
      var complete := true;
      var derivations: seq<Derivation> := [[]];
      var j := 0;
      while j < |rule.body|
        invariant 0 <= j <= |rule.body|
        invariant complete
        invariant BodyPartials(Index(), rule.body[..j], fuel) == Ok(Partials(derivations))
      {
        if fuel == 0 {
          BodyRaises(Index(), rule.body, j, derivations, fuel, FuelExhausted);
          ContributionRaises(Index(), rule, fuel, FuelExhausted);
          return Fail(FuelExhausted);
        }
        var partials := Derive(rule.body[j], fuel - 1);
        if partials.Fail? {
          BodyRaises(Index(), rule.body, j, derivations, fuel, partials.error);
          ContributionRaises(Index(), rule, fuel, partials.error);
          return Fail(partials.error);
        }
        if partials.value.Unprovable? {
          BodyGivesUp(Index(), rule.body, j, derivations, fuel);
          AbandonedContributesNothing(Index(), rule, fuel);
          complete := false;
          break;
        }
        var merged := MergeStep(derivations, partials.value.derivations);
        assert rule.body[..j + 1][..j] == rule.body[..j];
        BodyStep(Index(), rule.body[..j + 1], fuel, derivations, partials.value.derivations);
        derivations := merged;
        j := j + 1;
      }
      if !complete {
        return Ok([]);
      }
      assert rule.body[..|rule.body|] == rule.body;
      ContributionCompletes(Index(), rule, fuel, derivations);
      var results := AppendHead(derivations, rule.head);
      return Ok(results);
    }
  }
}
