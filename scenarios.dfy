/** Small programs whose answers the model is proved to give: a cyclic one,
    on which memory.py recurses until the interpreter's recursion limit
    raises; one that shows body literals resolved in DEFEASIBLE mode under a
    STRICT query; and a fact whose own head also has a recursing rule. */
module Scenarios {
  import opened Definitions
  import opened Merge
  import opened Engine
  import opened DerivationMemory

  const A := Literal(false, "a", [])
  const B := Literal(false, "b", [])
  const C := Literal(false, "c", [])
  const F := Literal(false, "f", [])

  /** `a -< b.  b -< a.  c.`: a fact, so the search is entered, and two
      rules that only prove each other. */
  function CycleProgram(): seq<Rule> {
    [Rule(A, [B], Defeasible), Rule(B, [A], Defeasible), Rule(C, [], Defeasible)]
  }

  /** A head with exactly one rule of the program is listed first with
      that rule. */
  lemma FirstEntry(m: map<Literal, seq<Rule>>, rules: seq<Rule>, mode: RuleType, rule: Rule)
    requires ByHead(m, rules, mode) && rule in rules && Admits(mode, rule)
    requires forall r :: r in rules && r.head == rule.head && Admits(mode, r) ==> r == rule
    ensures rule.head in m && m[rule.head] != [] && m[rule.head][0] == rule
  {
    ListedRule(m, rules, mode, rule.head, m[rule.head][0]);
  }

  /** Whatever the fuel, `a` and `b` can only run out of it: each needs a
      derivation of the other one level deeper. */
  lemma {:induction false} CycleExhaustsFuel(ix: RuleIndex, fuel: nat)
    requires Indexes(ix, CycleProgram())
    ensures Derivations(ix, A, Defeasible, fuel) == Fail(FuelExhausted)
    ensures Derivations(ix, B, Defeasible, fuel) == Fail(FuelExhausted)
  {
    var rules := CycleProgram();
    assert rules[2] in ix.facts;
    FirstEntry(ix.defeasibles, rules, Defeasible, rules[0]);
    FirstEntry(ix.defeasibles, rules, Defeasible, rules[1]);
    if fuel > 0 {
      CycleExhaustsFuel(ix, fuel - 1);
    }
    CycleStep(ix, rules[0], fuel);
    CycleStep(ix, rules[1], fuel);
  }

  /** One rule of the cycle, listed first under its head: it raises what its
      single body literal raises one level deeper, or FuelExhausted when no
      level is left, and so does its head. */
  lemma CycleStep(ix: RuleIndex, rule: Rule, fuel: nat)
    requires ix.facts != {} && |rule.body| == 1 && rule.head.IsGround()
    requires rule.head in ix.defeasibles && ix.defeasibles[rule.head] != [] && ix.defeasibles[rule.head][0] == rule
    requires fuel > 0 ==> Derivations(ix, rule.body[0], Defeasible, fuel - 1) == Fail(FuelExhausted)
    ensures Derivations(ix, rule.head, Defeasible, fuel) == Fail(FuelExhausted)
  {
    var entry := ix.defeasibles[rule.head];
    BodyRaises(ix, rule.body, 0, [[]], fuel, FuelExhausted);
    ContributionRaises(ix, rule, fuel, FuelExhausted);
    assert entry[..0] == [];
    RuleRaises(ix, entry, 0, [], fuel, FuelExhausted);
  }

  /** `a <- b.  b -< c.  c.`: a strict rule whose body literal only a
      defeasible rule concludes. */
  function StrictOverDefeasible(): seq<Rule> {
    [Rule(A, [B], Strict), Rule(B, [C], Defeasible), Rule(C, [], Strict)]
  }

  /** The views the constructor builds for that program. */
  function StrictOverDefeasibleViews(): RuleIndex {
    RuleIndex({Rule(C, [], Strict)},
              map[A := [Rule(A, [B], Strict)], C := [Rule(C, [], Strict)]],
              map[A := [Rule(A, [B], Strict)], B := [Rule(B, [C], Defeasible)], C := [Rule(C, [], Strict)]])
  }

  lemma StrictOverDefeasibleIndex()
    ensures IndexOf(StrictOverDefeasible()) == StrictOverDefeasibleViews()
  {
    var p := StrictOverDefeasible();
    assert A != B && A != C && B != C;
    var i0 := RuleIndex({}, map[], map[]);
    assert p[..1][..0] == [] && p[..1][0] == p[0];
    assert IndexOf(p[..1]) == AddRule(i0, p[0]);
    AddUnderFreshHead(map[], p[0]);
    var i1 := RuleIndex({}, map[A := [p[0]]], map[A := [p[0]]]);
    assert AddRule(i0, p[0]) == i1;
    assert p[..2][..1] == p[..1] && p[..2][1] == p[1];
    assert IndexOf(p[..2]) == AddRule(i1, p[1]);
    AddUnderFreshHead(map[A := [p[0]]], p[1]);
    var i2 := RuleIndex({}, map[A := [p[0]]], map[A := [p[0]], B := [p[1]]]);
    assert AddRule(i1, p[1]) == i2;
    assert p[..2] == p[..|p| - 1] && p[2] == p[|p| - 1];
    assert IndexOf(p) == AddRule(i2, p[2]);
    AddUnderFreshHead(map[A := [p[0]]], p[2]);
    AddUnderFreshHead(map[A := [p[0]], B := [p[1]]], p[2]);
  }

  /** A head without an entry gets one holding just the rule. */
  lemma AddUnderFreshHead(m: map<Literal, seq<Rule>>, rule: Rule)
    requires rule.head !in m
    ensures AddUnderHead(m, rule) == m[rule.head := [rule]]
  {
    var entry: seq<Rule> := [];
    assert entry + [rule] == [rule];
  }

  /** Merging one duplicate-free, non-empty derivation into the single empty
      partial gives just that derivation. */
  lemma MergeOne(d: Derivation)
    requires d != [] && NoDup(d)
    ensures CrossMerge([[]], [d]) == [d]
  {
    ExtendAppendsFresh([], d);
    FreshOfNoDup(d);
    assert Extend([], d) == d;
    SingleCandidate(d);
    SingleDistinct(d);
  }

  /** One partial and one sub-derivation give one candidate. */
  lemma SingleCandidate(d: Derivation)
    ensures Candidates([[]], [d]) == [Extend([], d)]
  {
    var empty: seq<Derivation> := [[]];
    assert empty[..0] == [];
    var one := [d];
    assert one[..0] == [];
    assert Row([], one) == [Extend([], d)];
  }

  /** A single non-empty candidate is kept. */
  lemma SingleDistinct(d: Derivation)
    requires d != []
    ensures Distinct([d]) == [d]
  {
    var one := [d];
    assert one[..0] == [];
  }

  /** A rule with one body literal completes each derivation of that
      literal with its head. */
  lemma SingleLiteralContribution(ix: RuleIndex, rule: Rule, fuel: nat, d: Derivation)
    requires |rule.body| == 1 && fuel > 0
    requires Derivations(ix, rule.body[0], Defeasible, fuel - 1) == Ok(Provable([d]))
    requires rule.head !in d
    ensures Contribution(ix, rule, fuel) == Ok([d + [rule.head]])
  {
    SingleLiteralBody(ix, rule.body, fuel, d);
    ContributionCompletes(ix, rule, fuel, [d]);
    assert WithHead([d], rule.head) == [d + [rule.head]] by {
      assert WithHead([d], rule.head)[0] == AddHead(d, rule.head);
    }
  }

  /** A one-literal body leaves exactly the derivations of that literal. */
  lemma SingleLiteralBody(ix: RuleIndex, body: seq<Literal>, fuel: nat, d: Derivation)
    requires |body| == 1 && fuel > 0
    requires Derivations(ix, body[0], Defeasible, fuel - 1) == Ok(Provable([d]))
    ensures BodyPartials(ix, body, fuel) == Ok(Partials([d]))
  {
    assert d in [d];
    MergeOne(d);
    assert body[..0] == [];
    BodyStep(ix, body, fuel, [[]], [d]);
  }

  /** ... and, listed alone under its head, gives the query for the head
      exactly those derivations. */
  lemma SingleLiteralRule(ix: RuleIndex, rule: Rule, mode: RuleType, fuel: nat, d: Derivation)
    requires ix.facts != {} && rule.head.IsGround() && |rule.body| == 1 && fuel > 0
    requires rule.head in ix.Select(mode) && ix.Select(mode)[rule.head] == [rule]
    requires Derivations(ix, rule.body[0], Defeasible, fuel - 1) == Ok(Provable([d]))
    requires rule.head !in d
    ensures Derivations(ix, rule.head, mode, fuel) == Ok(Provable([d + [rule.head]]))
  {
    SingleLiteralContribution(ix, rule, fuel, d);
    SoleRule(ix, rule, fuel);
  }

  /** The results of a head listed with one rule are that rule's
      contribution. */
  lemma SoleRule(ix: RuleIndex, rule: Rule, fuel: nat)
    requires Contribution(ix, rule, fuel).Ok?
    ensures RuleResults(ix, [rule], fuel) == Contribution(ix, rule, fuel)
  {
    var one := [rule];
    assert one[..0] == [];
    var c := Contribution(ix, rule, fuel).value;
    assert RuleResults(ix, one, fuel) == Ok([] + c);
    assert [] + c == c;
  }

  lemma DerivesC(ix: RuleIndex, fuel: nat)
    requires ix == StrictOverDefeasibleViews()
    ensures Derivations(ix, C, Defeasible, fuel) == Ok(Provable([[C]]))
  {
    var fact := Rule(C, [], Strict);
    assert fact in ix.facts;
    FactContribution(ix, fact, fuel);
    SoleRule(ix, fact, fuel);
  }

  lemma DerivesB(ix: RuleIndex, fuel: nat)
    requires ix == StrictOverDefeasibleViews() && fuel > 0
    ensures Derivations(ix, B, Defeasible, fuel) == Ok(Provable([[C, B]]))
  {
    assert B != C;
    DerivesC(ix, fuel - 1);
    var rule := Rule(B, [C], Defeasible);
    assert ix.Select(Defeasible)[B] == [rule];
    SingleLiteralRule(ix, rule, Defeasible, fuel, [C]);
    assert [C] + [B] == [C, B];
  }

  lemma DerivesStrictA(ix: RuleIndex, fuel: nat)
    requires ix == StrictOverDefeasibleViews() && fuel > 1
    ensures Derivations(ix, A, Strict, fuel) == Ok(Provable([[C, B, A]]))
  {
    assert A != B && A != C;
    DerivesB(ix, fuel - 1);
    var rule := Rule(A, [B], Strict);
    assert ix.Select(Strict)[A] == [rule];
    SingleLiteralRule(ix, rule, Strict, fuel, [C, B]);
    assert [C, B] + [A] == [C, B, A];
  }

  /** A STRICT query for `a` goes through its strict rule, whose body literal
      `b` is resolved in DEFEASIBLE mode and so is proved by the defeasible
      rule `b -< c`; the same literal `b` queried in STRICT mode has no
      entry and is unprovable. */
  lemma StrictQueryUsesDefeasibleBody()
    ensures Derivations(IndexOf(StrictOverDefeasible()), A, Strict, 5) == Ok(Provable([[C, B, A]]))
    ensures Derivations(IndexOf(StrictOverDefeasible()), B, Strict, 5) == Ok(Unprovable)
  {
    StrictOverDefeasibleIndex();
    var ix := StrictOverDefeasibleViews();
    DerivesStrictA(ix, 5);
    assert A != B && B != C;
    assert B !in ix.stricts;
  }

  /** `f.  f -< f.`: a fact whose head also has a rule that needs the head
      itself. */
  function SelfLoop(): seq<Rule> {
    [Rule(F, [], Strict), Rule(F, [F], Defeasible)]
  }

  /** The views the constructor builds for that program: the fact alone in
      the strict view, the fact and then the rule in the full view. */
  function SelfLoopViews(): RuleIndex {
    RuleIndex({Rule(F, [], Strict)},
              map[F := [Rule(F, [], Strict)]],
              map[F := [Rule(F, [], Strict), Rule(F, [F], Defeasible)]])
  }

  lemma SelfLoopIndex()
    ensures IndexOf(SelfLoop()) == SelfLoopViews()
  {
    var p := SelfLoop();
    var i0 := RuleIndex({}, map[], map[]);
    assert p[..1][..0] == [] && p[..1][0] == p[0];
    assert IndexOf(p[..1]) == AddRule(i0, p[0]);
    AddUnderFreshHead(map[], p[0]);
    var i1 := RuleIndex({p[0]}, map[F := [p[0]]], map[F := [p[0]]]);
    assert AddRule(i0, p[0]) == i1;
    assert p[..1] == p[..|p| - 1] && p[1] == p[|p| - 1];
    assert IndexOf(p) == AddRule(i1, p[1]);
    assert p[1] !in [p[0]];
    assert [p[0]] + [p[1]] == [p[0], p[1]];
  }

  /** The fact alone contributes `[[f]]`, so a STRICT query for `f`, which
      only sees the fact, answers `[[f]]`. */
  lemma SelfLoopStrict(ix: RuleIndex, fuel: nat)
    requires ix == SelfLoopViews()
    ensures Derivations(ix, F, Strict, fuel) == Ok(Provable([[F]]))
  {
    var fact := Rule(F, [], Strict);
    FactContribution(ix, fact, fuel);
    SoleRule(ix, fact, fuel);
  }

  /** In DEFEASIBLE mode the rule `f -< f` is tried after the fact and needs
      `f` one level deeper, so the query runs out of fuel whatever the fuel,
      although the fact alone already derives `f`. */
  lemma {:induction false} SelfLoopRaises(ix: RuleIndex, fuel: nat)
    requires ix == SelfLoopViews()
    ensures Derivations(ix, F, Defeasible, fuel) == Fail(FuelExhausted)
  {
    if fuel > 0 {
      SelfLoopRaises(ix, fuel - 1);
    }
    var fact := Rule(F, [], Strict);
    var loop := Rule(F, [F], Defeasible);
    var entry := ix.defeasibles[F];
    assert loop.body[..0] == [];
    BodyRaises(ix, loop.body, 0, [[]], fuel, FuelExhausted);
    ContributionRaises(ix, loop, fuel, FuelExhausted);
    FactContribution(ix, fact, fuel);
    SoleRule(ix, fact, fuel);
    assert entry[..1] == [fact] && entry[1] == loop;
    RuleRaises(ix, entry, 1, [[F]], fuel, FuelExhausted);
  }

  /** For `f.  f -< f.` the STRICT query for `f` answers `[[f]]`, while the
      DEFEASIBLE query raises at every fuel: `[f]` is a DEFEASIBLE-mode
      derivation of a fact only when that query does not raise. */
  lemma FactWithSelfLoop(fuel: nat)
    ensures Derivations(IndexOf(SelfLoop()), F, Strict, fuel) == Ok(Provable([[F]]))
    ensures Derivations(IndexOf(SelfLoop()), F, Defeasible, fuel) == Fail(FuelExhausted)
  {
    SelfLoopIndex();
    SelfLoopStrict(SelfLoopViews(), fuel);
    SelfLoopRaises(SelfLoopViews(), fuel);
  }
}
