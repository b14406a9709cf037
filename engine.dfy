/** What `Memory.derive` computes (memory.py, lines 29-66), as functions over
    the value of the rule index. The search is bounded by `fuel`: the depth
    of nested body-literal lookups it may still make. Running out of fuel is a
    failure of its own, `FuelExhausted`. It stands for the RecursionError the
    Python code raises when its nested calls reach the interpreter's
    recursion limit, with a depth the caller picks instead of that limit. */
module Engine {
  import opened Definitions
  import opened Merge

  /** The three views of a ground program the engine reads: the facts, and
      the rules by head, all of them (`defeasibles`) or only the strict ones
      (`stricts`). */
  datatype RuleIndex = RuleIndex(
    facts: set<Rule>,
    stricts: map<Literal, seq<Rule>>,
    defeasibles: map<Literal, seq<Rule>>)
  {
    /** The view a query in the given mode is matched against. */
    function Select(mode: RuleType): map<Literal, seq<Rule>> {
      match mode
      case Defeasible => defeasibles
      case Strict => stricts
    }

    /** Some rule of the index has head `x`. */
    predicate Concludes(x: Literal) {
      x in defeasibles || x in stricts
    }
  }

  /** A rule is tried in DEFEASIBLE mode whatever its type, in STRICT mode
      only if it is strict. */
  predicate Admits(mode: RuleType, rule: Rule) {
    mode == Defeasible || rule.kind == Strict
  }

  /** `facts` holds exactly the bodiless rules of the program. */
  ghost predicate FactsOf(facts: set<Rule>, rules: seq<Rule>) {
    forall r :: r in facts <==> r in rules && r.IsFact()
  }

  /** `m` lists every rule of the program the mode admits, once, under its
      head, and nothing else; no head has an empty entry. */
  ghost predicate ByHead(m: map<Literal, seq<Rule>>, rules: seq<Rule>, mode: RuleType) {
    && (forall r :: r in rules && Admits(mode, r) ==> r.head in m && r in m[r.head])
    && (forall h, r :: h in m && r in m[h] ==> r in rules && r.head == h && Admits(mode, r))
    && (forall h :: h in m ==> m[h] != [] && NoDup(m[h]))
  }

  /** What the constructor of Memory establishes for the rules of a ground
      program. */
  ghost predicate Indexes(ix: RuleIndex, rules: seq<Rule>) {
    && FactsOf(ix.facts, rules)
    && ByHead(ix.defeasibles, rules, Defeasible)
    && ByHead(ix.stricts, rules, Strict)
  }

  /** A rule listed under `h` in a view is a rule of the program with head
      `h` that the view's mode admits. */
  lemma ListedRule(m: map<Literal, seq<Rule>>, rules: seq<Rule>, mode: RuleType, h: Literal, r: Rule)
    requires ByHead(m, rules, mode) && h in m && r in m[h]
    ensures r in rules && r.head == h && Admits(mode, r)
  {
  }

  /** Every rule an index lists under a literal has that literal as head. */
  ghost predicate Keyed(ix: RuleIndex) {
    && (forall h, r :: h in ix.defeasibles && r in ix.defeasibles[h] ==> r.head == h)
    && (forall h, r :: h in ix.stricts && r in ix.stricts[h] ==> r.head == h)
  }

  /** Result of a query that did not fail: `Unprovable` is Python's `None`,
      `Provable([])` its empty list. */
  datatype Outcome = Unprovable | Provable(derivations: seq<Derivation>)

  /** `NotGroundLiteral` is NotGroundLiteralException; `FuelExhausted` is the
      bound this model adds. */
  datatype DeriveError = NotGroundLiteral(literal: Literal) | FuelExhausted

  /** A raised exception propagates to the caller of `derive` unchanged. */
  datatype Result<+T> = Ok(value: T) | Fail(error: DeriveError)
  {
    predicate IsFailure() {
      Fail?
    }

    function PropagateFailure<U>(): Result<U>
      requires Fail?
    {
      Fail(error)
    }

    function Extract(): T
      requires Ok?
    {
      value
    }
  }

  /** State of one rule's body loop: given up (`complete = False`), or the
      working set of partial derivations. */
  datatype Working = Abandoned | Partials(partials: seq<Derivation>)

  /** A derivation completed by a rule gets the rule's head at its end,
      unless the head is already in it. */
  function AddHead(d: Derivation, head: Literal): (r: Derivation)
    ensures head in r
    ensures forall x :: x in r <==> x in d || x == head
    ensures |d| <= |r| && r[..|d|] == d
    ensures NoDup(d) ==> NoDup(r)
  {
    if head in d then d else d + [head]
  }

  function WithHead(ws: seq<Derivation>, head: Literal): (r: seq<Derivation>)
    ensures |r| == |ws|
    ensures forall k :: 0 <= k < |ws| ==> r[k] == AddHead(ws[k], head)
    decreases |ws|
  {
    if ws == [] then [] else WithHead(ws[..|ws| - 1], head) + [AddHead(ws[|ws| - 1], head)]
  }

  /** `derive(literal, mode)` with at most `fuel` levels of nested body
      lookups. */
  function Derivations(ix: RuleIndex, literal: Literal, mode: RuleType, fuel: nat): (r: Result<Outcome>)
    ensures r.Fail? && r.error.NotGroundLiteral? ==> !r.error.literal.IsGround()
    ensures r.Ok? && r.value.Provable? ==> forall d :: d in r.value.derivations ==> d != [] && NoDup(d)
    decreases fuel, 4, 0
  {
    if !literal.IsGround() then Fail(NotGroundLiteral(literal))
    else if ix.facts == {} then Ok(Unprovable)
    else if literal !in ix.Select(mode) then Ok(Unprovable)
    else
      var results :- RuleResults(ix, ix.Select(mode)[literal], fuel);
      Ok(Provable(results))
  }

  /** The contributions of `rules`, tried in order and concatenated. */
  function RuleResults(ix: RuleIndex, rules: seq<Rule>, fuel: nat): (r: Result<seq<Derivation>>)
    ensures r.Fail? && r.error.NotGroundLiteral? ==> !r.error.literal.IsGround()
    ensures r.Ok? ==> forall d :: d in r.value ==> d != [] && NoDup(d)
    decreases fuel, 3, |rules|
  {
    if rules == [] then Ok([])
    else
      var earlier :- RuleResults(ix, rules[..|rules| - 1], fuel);
      var last :- Contribution(ix, rules[|rules| - 1], fuel);
      Ok(earlier + last)
  }

  /** What one rule adds to the results: nothing if its body was given up,
      otherwise every surviving partial with the head added. */
  function Contribution(ix: RuleIndex, rule: Rule, fuel: nat): (r: Result<seq<Derivation>>)
    ensures r.Fail? && r.error.NotGroundLiteral? ==> !r.error.literal.IsGround()
    ensures r.Ok? ==> forall d :: d in r.value ==> rule.head in d && NoDup(d)
    decreases fuel, 2, 0
  {
    var working :- BodyPartials(ix, rule.body, fuel);
    match working
    case Abandoned => Ok([])
    case Partials(ws) => Ok(WithHead(ws, rule.head))
  }

  /** The working set after the body literals in `body`, in order, each
      resolved in DEFEASIBLE mode whatever the mode of the query. */
  function BodyPartials(ix: RuleIndex, body: seq<Literal>, fuel: nat): (r: Result<Working>)
    ensures r.Fail? && r.error.NotGroundLiteral? ==> !r.error.literal.IsGround()
    ensures r.Ok? && r.value.Partials? ==> forall w :: w in r.value.partials ==> NoDup(w)
    decreases fuel, 1, |body|
  {
    if body == [] then Ok(Partials([[]]))
    else
      var before :- BodyPartials(ix, body[..|body| - 1], fuel);
      if before.Abandoned? then Ok(Abandoned)
      else if fuel == 0 then Fail(FuelExhausted)
      else
        var sub :- Derivations(ix, body[|body| - 1], Defeasible, fuel - 1);
        match sub
        case Unprovable => Ok(Abandoned)
        case Provable(ps) => Ok(Partials(CrossMerge(before.partials, ps)))
  }

  // ---------------------------------------------------------------------
  // The index

  lemma IndexesAreKeyed(ix: RuleIndex, rules: seq<Rule>)
    requires Indexes(ix, rules)
    ensures Keyed(ix)
  {
  }

  /** The strict view is part of the full view: same keys at most, and under
      each key only rules that are also listed in the full view. */
  lemma StrictsWithinDefeasibles(ix: RuleIndex, rules: seq<Rule>)
    requires Indexes(ix, rules)
    ensures forall h :: h in ix.stricts ==> h in ix.defeasibles
    ensures forall h, r :: h in ix.stricts && r in ix.stricts[h] ==> r in ix.defeasibles[h]
  {
    forall h | h in ix.stricts ensures h in ix.defeasibles {
      var r := ix.stricts[h][0];
      assert r in ix.stricts[h];
      assert r in rules && r.head == h && Admits(Defeasible, r);
    }
    forall h, r | h in ix.stricts && r in ix.stricts[h] ensures r in ix.defeasibles[h] {
      assert r in rules && r.head == h && Admits(Defeasible, r);
    }
  }

  // ---------------------------------------------------------------------
  // Early exits

  /** The ground check comes first: a query fails with NotGroundLiteral for
      itself exactly when it is not ground. */
  lemma NotGroundIff(ix: RuleIndex, literal: Literal, mode: RuleType, fuel: nat)
    ensures Derivations(ix, literal, mode, fuel) == Fail(NotGroundLiteral(literal)) <==> !literal.IsGround()
  {
  }

  /** Without a single fact in the program nothing is provable, whatever
      rules there are. */
  lemma NoFactsNothingProvable(ix: RuleIndex, literal: Literal, mode: RuleType, fuel: nat)
    requires literal.IsGround() && ix.facts == {}
    ensures Derivations(ix, literal, mode, fuel) == Ok(Unprovable)
  {
  }

  /** `None` comes only from the two early exits; once rules are matched the
      answer is a list, possibly empty. */
  lemma UnprovableIff(ix: RuleIndex, literal: Literal, mode: RuleType, fuel: nat)
    ensures Derivations(ix, literal, mode, fuel) == Ok(Unprovable)
            <==> literal.IsGround() && (ix.facts == {} || literal !in ix.Select(mode))
  {
  }

  lemma {:induction false} EmptyContributions(ix: RuleIndex, rules: seq<Rule>, fuel: nat)
    requires forall r :: r in rules ==> Contribution(ix, r, fuel) == Ok([])
    ensures RuleResults(ix, rules, fuel) == Ok([])
    decreases |rules|
  {
    if rules != [] {
      var rules' := rules[..|rules| - 1];
      var last := rules[|rules| - 1];
      assert forall r :: r in rules' ==> r in rules;
      EmptyContributions(ix, rules', fuel);
      assert last in rules;
      var none: seq<Derivation> := [];
      assert none + none == none;
    }
  }

  /** Matching rules none of which completes give the empty list, not None. */
  lemma NoRuleCompletes(ix: RuleIndex, literal: Literal, mode: RuleType, fuel: nat)
    requires literal.IsGround() && ix.facts != {} && literal in ix.Select(mode)
    requires forall r :: r in ix.Select(mode)[literal] ==> Contribution(ix, r, fuel) == Ok([])
    ensures Derivations(ix, literal, mode, fuel) == Ok(Provable([]))
  {
    EmptyContributions(ix, ix.Select(mode)[literal], fuel);
  }

  // ---------------------------------------------------------------------
  // One rule

  /** Once a body literal is unprovable (or raised), the later body literals
      are never looked at: the outcome of the whole body is that of the
      prefix. */
  lemma {:induction false} BodyPrefixDecides(ix: RuleIndex, body: seq<Literal>, k: nat, fuel: nat)
    requires k <= |body|
    requires BodyPartials(ix, body[..k], fuel).Fail? || BodyPartials(ix, body[..k], fuel) == Ok(Abandoned)
    ensures BodyPartials(ix, body, fuel) == BodyPartials(ix, body[..k], fuel)
    decreases |body| - k
  {
    if k < |body| {
      var next := body[..k + 1];
      assert next[..k] == body[..k];
      assert BodyPartials(ix, next, fuel) == BodyPartials(ix, body[..k], fuel);
      BodyPrefixDecides(ix, body, k + 1, fuel);
    } else {
      assert body[..k] == body;
    }
  }

  /** A body literal with the empty list of derivations empties the working
      set for good: the body may still raise or give up, but nothing
      survives to completion. */
  lemma {:induction false} EmptyStaysEmpty(ix: RuleIndex, body: seq<Literal>, k: nat, fuel: nat)
    requires k <= |body|
    requires BodyPartials(ix, body[..k], fuel) == Ok(Partials([]))
    ensures BodyPartials(ix, body, fuel).Fail? || BodyPartials(ix, body, fuel).value in {Abandoned, Partials([])}
    decreases |body| - k
  {
    if k < |body| {
      var next := body[..k + 1];
      assert next[..k] == body[..k] && next[k] == body[k];
      var w := BodyPartials(ix, next, fuel);
      if w.Fail? || w == Ok(Abandoned) {
        BodyPrefixDecides(ix, body, k + 1, fuel);
      } else {
        BodyWorking(ix, next, fuel);
        CrossMergeBound([], Derivations(ix, body[k], Defeasible, fuel - 1).value.derivations);
        EmptyStaysEmpty(ix, body, k + 1, fuel);
      }
    } else {
      assert body[..k] == body;
    }
  }

  /** A body literal that raises, or that finds no fuel left, makes the
      whole body raise the same error. */
  lemma BodyRaises(ix: RuleIndex, body: seq<Literal>, j: nat, ws: seq<Derivation>, fuel: nat, e: DeriveError)
    requires j < |body|
    requires BodyPartials(ix, body[..j], fuel) == Ok(Partials(ws))
    requires if fuel == 0 then e == FuelExhausted else Derivations(ix, body[j], Defeasible, fuel - 1) == Fail(e)
    ensures BodyPartials(ix, body, fuel) == Fail(e)
  {
    var next := body[..j + 1];
    assert next[..j] == body[..j] && next[j] == body[j];
    assert BodyPartials(ix, next, fuel) == Fail(e);
    BodyPrefixDecides(ix, body, j + 1, fuel);
  }

  /** A body literal without derivations (`None`) gives up the whole body. */
  lemma BodyGivesUp(ix: RuleIndex, body: seq<Literal>, j: nat, ws: seq<Derivation>, fuel: nat)
    requires j < |body| && fuel > 0
    requires BodyPartials(ix, body[..j], fuel) == Ok(Partials(ws))
    requires Derivations(ix, body[j], Defeasible, fuel - 1) == Ok(Unprovable)
    ensures BodyPartials(ix, body, fuel) == Ok(Abandoned)
  {
    assert body[..j + 1][..j] == body[..j];
    BodyPrefixDecides(ix, body, j + 1, fuel);
  }

  /** A rule that raises makes the whole query raise the same error. */
  lemma RuleRaises(ix: RuleIndex, rules: seq<Rule>, i: nat, results: seq<Derivation>, fuel: nat, e: DeriveError)
    requires i < |rules|
    requires RuleResults(ix, rules[..i], fuel) == Ok(results)
    requires Contribution(ix, rules[i], fuel) == Fail(e)
    ensures RuleResults(ix, rules, fuel) == Fail(e)
  {
    assert rules[..i + 1][..i] == rules[..i];
    ResultsPrefixFails(ix, rules, i + 1, fuel);
  }

  /** A rule whose body was given up contributes nothing. */
  lemma AbandonedContributesNothing(ix: RuleIndex, rule: Rule, fuel: nat)
    requires BodyPartials(ix, rule.body, fuel) == Ok(Abandoned)
    ensures Contribution(ix, rule, fuel) == Ok([])
  {
  }

  /** A body that raised makes its rule raise the same error. */
  lemma ContributionRaises(ix: RuleIndex, rule: Rule, fuel: nat, e: DeriveError)
    requires BodyPartials(ix, rule.body, fuel) == Fail(e)
    ensures Contribution(ix, rule, fuel) == Fail(e)
  {
  }

  /** A body that went through completes each surviving partial with the
      rule's head. */
  lemma ContributionCompletes(ix: RuleIndex, rule: Rule, fuel: nat, ws: seq<Derivation>)
    requires BodyPartials(ix, rule.body, fuel) == Ok(Partials(ws))
    ensures Contribution(ix, rule, fuel) == Ok(WithHead(ws, rule.head))
  {
  }

  /** A fact `F.` contributes exactly the derivation `[F]`. */
  lemma FactContribution(ix: RuleIndex, rule: Rule, fuel: nat)
    requires rule.IsFact()
    ensures Contribution(ix, rule, fuel) == Ok([[rule.head]])
  {
    assert rule.body == [];
    assert BodyPartials(ix, rule.body, fuel) == Ok(Partials([[]]));
    assert WithHead([[]], rule.head) == [[rule.head]] by {
      assert WithHead([[]], rule.head)[0] == AddHead([], rule.head);
    }
  }

  lemma MulMonotone(a: nat, b: nat, c: nat)
    requires a <= b
    ensures a * c <= b * c
  {
  }

  /** One body literal with derivations `ps` turns the working set `ws` into
      its cross-merge with `ps`. */
  lemma BodyStep(ix: RuleIndex, body: seq<Literal>, fuel: nat, ws: seq<Derivation>, ps: seq<Derivation>)
    requires body != [] && fuel > 0
    requires BodyPartials(ix, body[..|body| - 1], fuel) == Ok(Partials(ws))
    requires Derivations(ix, body[|body| - 1], Defeasible, fuel - 1) == Ok(Provable(ps))
    ensures BodyPartials(ix, body, fuel) == Ok(Partials(CrossMerge(ws, ps)))
  {
  }

  /** `c` is a derivation of the first body literal, extended by the new
      literals of one of the second, with `head` added once. */
  ghost predicate MergeOfTwo(c: Derivation, p1: seq<Derivation>, p2: seq<Derivation>, head: Literal) {
    exists d1, d2 :: d1 in p1 && d2 in p2 && c == AddHead(Extend(d1, d2), head)
  }

  /** For `h <- b1, b2.`: if b1 has the derivations p1 and b2 the derivations
      p2, the rule contributes at most |p1| * |p2| derivations, each one a
      derivation of b1 extended by the new literals of one of b2, with h
      added once. */
  lemma TwoLiteralRule(ix: RuleIndex, rule: Rule, fuel: nat, p1: seq<Derivation>, p2: seq<Derivation>)
    requires |rule.body| == 2 && fuel > 0
    requires Derivations(ix, rule.body[0], Defeasible, fuel - 1) == Ok(Provable(p1))
    requires Derivations(ix, rule.body[1], Defeasible, fuel - 1) == Ok(Provable(p2))
    ensures Contribution(ix, rule, fuel).Ok?
    ensures |Contribution(ix, rule, fuel).value| <= |p1| * |p2|
    ensures forall c :: c in Contribution(ix, rule, fuel).value ==> MergeOfTwo(c, p1, p2, rule.head)
  {
    var b := rule.body;
    var ws1 := CrossMerge([[]], p1);
    var ws2 := CrossMerge(ws1, p2);
    assert b[..1][..0] == [];
    BodyStep(ix, b[..1], fuel, [[]], p1);
    assert b[..2][..1] == b[..1] && b[..2] == b;
    BodyStep(ix, b, fuel, ws1, p2);
    var cs := WithHead(ws2, rule.head);
    assert Contribution(ix, rule, fuel) == Ok(cs);
    FirstLiteralMerge(p1);
    CrossMergeBound(ws1, p2);
    MulMonotone(|ws1|, |p1|, |p2|);
    forall c | c in cs ensures MergeOfTwo(c, p1, p2, rule.head) {
      var m := HeadedFrom(ws2, rule.head, c);
      var w1, d2 := MergedFrom(ws1, p2, m);
      assert w1 in p1;
    }
  }

  /** Which partial a headed derivation came from. */
  lemma HeadedFrom(ws: seq<Derivation>, head: Literal, c: Derivation) returns (w: Derivation)
    requires c in WithHead(ws, head)
    ensures w in ws && c == AddHead(w, head)
  {
    var cs := WithHead(ws, head);
    var k :| 0 <= k < |cs| && cs[k] == c;
    w := ws[k];
  }

  /** Which partial and which sub-derivation a merged candidate came from. */
  lemma MergedFrom(ws: seq<Derivation>, ps: seq<Derivation>, m: Derivation) returns (w: Derivation, p: Derivation)
    requires m in CrossMerge(ws, ps)
    ensures w in ws && p in ps && m == Extend(w, p)
  {
    CrossMergeMembers(ws, ps);
    w, p :| w in ws && p in ps && m == Extend(w, p);
  }

  // ---------------------------------------------------------------------
  // Several rules

  /** `d` is one of the derivations rule `r` contributes. */
  ghost predicate ContributedBy(ix: RuleIndex, r: Rule, fuel: nat, d: Derivation) {
    Contribution(ix, r, fuel).Ok? && d in Contribution(ix, r, fuel).value
  }

  /** The results are exactly the contributions of the rules, none dropped
      and nothing added. */
  lemma {:induction false} ResultsAreContributions(ix: RuleIndex, rules: seq<Rule>, fuel: nat)
    requires RuleResults(ix, rules, fuel).Ok?
    ensures forall r :: r in rules ==> Contribution(ix, r, fuel).Ok?
    ensures forall r, d :: r in rules && d in Contribution(ix, r, fuel).value ==> d in RuleResults(ix, rules, fuel).value
    ensures forall d :: d in RuleResults(ix, rules, fuel).value ==>
              exists r :: r in rules && ContributedBy(ix, r, fuel, d)
    decreases |rules|
  {
    if rules != [] {
      var rules' := rules[..|rules| - 1];
      var last := rules[|rules| - 1];
      assert rules == rules' + [last];
      ResultsAreContributions(ix, rules', fuel);
      var all := RuleResults(ix, rules, fuel).value;
      var earlier := RuleResults(ix, rules', fuel).value;
      assert all == earlier + Contribution(ix, last, fuel).value;
      forall d | d in all
        ensures exists r :: r in rules && ContributedBy(ix, r, fuel, d)
      {
        if d in earlier {
          var r :| r in rules' && ContributedBy(ix, r, fuel, d);
          assert r in rules;
        } else {
          assert last in rules;
        }
      }
    }
  }

  /** Contributions of different rules are concatenated as they are, with
      no deduplication across rules. */
  lemma {:induction false} ResultsConcat(ix: RuleIndex, rules: seq<Rule>, more: seq<Rule>, fuel: nat)
    requires RuleResults(ix, rules, fuel).Ok? && RuleResults(ix, more, fuel).Ok?
    ensures RuleResults(ix, rules + more, fuel) == Ok(RuleResults(ix, rules, fuel).value + RuleResults(ix, more, fuel).value)
    decreases |more|
  {
    if more == [] {
      var a := RuleResults(ix, rules, fuel).value;
      assert rules + more == rules && a + [] == a;
    } else {
      ResultsSplit(ix, more, fuel);
      ResultsConcat(ix, rules, more[..|more| - 1], fuel);
      ResultsConcatStep(ix, rules, more, fuel);
    }
  }

  lemma ResultsConcatStep(ix: RuleIndex, rules: seq<Rule>, more: seq<Rule>, fuel: nat)
    requires more != [] && RuleResults(ix, rules, fuel).Ok?
    requires RuleResults(ix, more[..|more| - 1], fuel).Ok? && Contribution(ix, more[|more| - 1], fuel).Ok?
    requires RuleResults(ix, rules + more[..|more| - 1], fuel) ==
               Ok(RuleResults(ix, rules, fuel).value + RuleResults(ix, more[..|more| - 1], fuel).value)
    ensures RuleResults(ix, rules + more, fuel) ==
              Ok(RuleResults(ix, rules, fuel).value +
                 (RuleResults(ix, more[..|more| - 1], fuel).value + Contribution(ix, more[|more| - 1], fuel).value))
  {
    var more' := more[..|more| - 1];
    var last := more[|more| - 1];
    ResultsAppend(ix, rules + more', last, fuel);
    SnocAssoc(rules, more);
    ConcatAssoc(RuleResults(ix, rules, fuel).value, RuleResults(ix, more', fuel).value, Contribution(ix, last, fuel).value);
  }

  lemma ConcatAssoc<T>(a: seq<T>, b: seq<T>, c: seq<T>)
    ensures (a + b) + c == a + (b + c)
  {
  }

  lemma SnocAssoc<T>(a: seq<T>, b: seq<T>)
    requires b != []
    ensures a + b == (a + b[..|b| - 1]) + [b[|b| - 1]]
  {
    assert b == b[..|b| - 1] + [b[|b| - 1]];
  }

  /** One more rule adds its contribution at the end. */
  lemma ResultsAppend(ix: RuleIndex, rules: seq<Rule>, rule: Rule, fuel: nat)
    requires RuleResults(ix, rules, fuel).Ok? && Contribution(ix, rule, fuel).Ok?
    ensures RuleResults(ix, rules + [rule], fuel) == Ok(RuleResults(ix, rules, fuel).value + Contribution(ix, rule, fuel).value)
  {
    var all := rules + [rule];
    assert all[..|all| - 1] == rules && all[|all| - 1] == rule;
  }

  /** Once a rule raised, later rules are not tried. */
  lemma {:induction false} ResultsPrefixFails(ix: RuleIndex, rules: seq<Rule>, k: nat, fuel: nat)
    requires k <= |rules| && RuleResults(ix, rules[..k], fuel).Fail?
    ensures RuleResults(ix, rules, fuel) == RuleResults(ix, rules[..k], fuel)
    decreases |rules| - k
  {
    if k < |rules| {
      assert rules[..k + 1][..k] == rules[..k];
      ResultsPrefixFails(ix, rules, k + 1, fuel);
    } else {
      assert rules[..k] == rules;
    }
  }

  /** In STRICT mode every derivation is contributed by a strict rule for the
      queried literal; defeasible rules are never matched at the top. */
  lemma StrictModeUsesStrictRules(ix: RuleIndex, rules: seq<Rule>, literal: Literal, fuel: nat, ds: seq<Derivation>)
    requires Indexes(ix, rules)
    requires Derivations(ix, literal, Strict, fuel) == Ok(Provable(ds))
    ensures forall d :: d in ds ==>
              exists r :: r in rules && r.kind == Strict && r.head == literal &&
                ContributedBy(ix, r, fuel, d)
  {
    assert literal.IsGround() && ix.facts != {} && literal in ix.stricts;
    var strict := ix.stricts[literal];
    assert RuleResults(ix, strict, fuel) == Ok(ds);
    ResultsAreContributions(ix, strict, fuel);
    forall d | d in ds
      ensures exists r :: r in rules && r.kind == Strict && r.head == literal && ContributedBy(ix, r, fuel, d)
    {
      var r :| r in strict && ContributedBy(ix, r, fuel, d);
      ListedRule(ix.stricts, rules, Strict, literal, r);
    }
  }

  /** Since body literals are resolved in DEFEASIBLE mode either way, what a
      strict rule contributes does not depend on the query's mode: when the
      DEFEASIBLE query does not raise, every STRICT-mode derivation is also
      one of its derivations. */
  lemma StrictWithinDefeasible(ix: RuleIndex, rules: seq<Rule>, literal: Literal, fuel: nat, ds: seq<Derivation>)
    requires Indexes(ix, rules)
    requires Derivations(ix, literal, Strict, fuel) == Ok(Provable(ds))
    requires Derivations(ix, literal, Defeasible, fuel).Ok?
    ensures Derivations(ix, literal, Defeasible, fuel).value.Provable?
    ensures forall d :: d in ds ==> d in Derivations(ix, literal, Defeasible, fuel).value.derivations
  {
    StrictsWithinDefeasibles(ix, rules);
    ResultsAreContributions(ix, ix.stricts[literal], fuel);
    ResultsAreContributions(ix, ix.defeasibles[literal], fuel);
  }

  /** A fact `F.` of the program makes `[F]` one of F's derivations, in
      DEFEASIBLE mode, and in STRICT mode too when the fact is strict,
      whenever that query does not raise. */
  lemma FactDerivesItself(ix: RuleIndex, rules: seq<Rule>, fact: Rule, mode: RuleType, fuel: nat)
    requires Indexes(ix, rules)
    requires fact in rules && fact.IsFact() && fact.head.IsGround()
    requires mode == Defeasible || fact.kind == Strict
    requires Derivations(ix, fact.head, mode, fuel).Ok?
    ensures Derivations(ix, fact.head, mode, fuel).value.Provable?
    ensures [fact.head] in Derivations(ix, fact.head, mode, fuel).value.derivations
  {
    assert fact in ix.facts;
    ResultsAreContributions(ix, ix.Select(mode)[fact.head], fuel);
    FactContribution(ix, fact, fuel);
  }

  // ---------------------------------------------------------------------
  // Every derivation proves its literal from ground, concluded literals

  ghost predicate Grounded(ix: RuleIndex, d: Derivation) {
    forall x :: x in d ==> x.IsGround() && ix.Concludes(x)
  }

  /** Every derivation of a literal contains it (once, as derivations have no
      repeats), and every literal in it is ground and the head of some rule. */
  lemma {:induction false} DerivationsSound(ix: RuleIndex, literal: Literal, mode: RuleType, fuel: nat, ds: seq<Derivation>)
    requires Keyed(ix)
    requires Derivations(ix, literal, mode, fuel) == Ok(Provable(ds))
    ensures forall d :: d in ds ==> literal in d && Grounded(ix, d)
    decreases fuel, 4, 0
  {
    ResultsSound(ix, literal, ix.Select(mode)[literal], fuel, ds);
  }

  lemma {:induction false} ResultsSound(ix: RuleIndex, head: Literal, rules: seq<Rule>, fuel: nat, ds: seq<Derivation>)
    requires Keyed(ix) && head.IsGround() && ix.Concludes(head)
    requires forall r :: r in rules ==> r.head == head
    requires RuleResults(ix, rules, fuel) == Ok(ds)
    ensures forall d :: d in ds ==> head in d && Grounded(ix, d)
    decreases fuel, 3, |rules|
  {
    if rules != [] {
      var last := rules[|rules| - 1];
      assert last in rules;
      ResultsSplit(ix, rules, fuel);
      ResultsSound(ix, head, rules[..|rules| - 1], fuel, RuleResults(ix, rules[..|rules| - 1], fuel).value);
      ContributionSound(ix, last, fuel, Contribution(ix, last, fuel).value);
    }
  }

  /** Results that went through are those of the earlier rules followed by
      the last rule's contribution. */
  lemma ResultsSplit(ix: RuleIndex, rules: seq<Rule>, fuel: nat)
    requires rules != [] && RuleResults(ix, rules, fuel).Ok?
    ensures RuleResults(ix, rules[..|rules| - 1], fuel).Ok?
    ensures Contribution(ix, rules[|rules| - 1], fuel).Ok?
    ensures RuleResults(ix, rules, fuel).value ==
              RuleResults(ix, rules[..|rules| - 1], fuel).value + Contribution(ix, rules[|rules| - 1], fuel).value
  {
  }

  lemma {:induction false} ContributionSound(ix: RuleIndex, rule: Rule, fuel: nat, cs: seq<Derivation>)
    requires Keyed(ix)
    requires Contribution(ix, rule, fuel) == Ok(cs)
    ensures forall d :: d in cs ==>
              rule.head in d && forall x :: x in d && x != rule.head ==> x.IsGround() && ix.Concludes(x)
    decreases fuel, 2, 0
  {
    var working := BodyPartials(ix, rule.body, fuel);
    if working.value.Partials? {
      var ws := working.value.partials;
      ContributionCompletes(ix, rule, fuel, ws);
      BodySound(ix, rule.body, fuel, ws);
      forall d | d in cs
        ensures forall x :: x in d && x != rule.head ==> x.IsGround() && ix.Concludes(x)
      {
        var w := HeadedFrom(ws, rule.head, d);
      }
    }
  }

  lemma {:induction false} BodySound(ix: RuleIndex, body: seq<Literal>, fuel: nat, ws: seq<Derivation>)
    requires Keyed(ix)
    requires BodyPartials(ix, body, fuel) == Ok(Partials(ws))
    ensures forall w :: w in ws ==> Grounded(ix, w)
    decreases fuel, 1, |body|
  {
    if body != [] {
      BodyWorking(ix, body, fuel);
      var prefix := body[..|body| - 1];
      var b := body[|body| - 1];
      var before := BodyPartials(ix, prefix, fuel).value.partials;
      var ps := Derivations(ix, b, Defeasible, fuel - 1).value.derivations;
      BodySound(ix, prefix, fuel, before);
      DerivationsSound(ix, b, Defeasible, fuel - 1, ps);
      GroundedCrossMerge(ix, before, ps);
    }
  }

  /** A non-empty body that went through had fuel left, went through its
      prefix, found derivations for its last literal, and merged them in. */
  lemma BodyWorking(ix: RuleIndex, body: seq<Literal>, fuel: nat)
    requires body != []
    requires BodyPartials(ix, body, fuel).Ok? && BodyPartials(ix, body, fuel).value.Partials?
    ensures fuel > 0
    ensures BodyPartials(ix, body[..|body| - 1], fuel).Ok?
    ensures BodyPartials(ix, body[..|body| - 1], fuel).value.Partials?
    ensures Derivations(ix, body[|body| - 1], Defeasible, fuel - 1).Ok?
    ensures Derivations(ix, body[|body| - 1], Defeasible, fuel - 1).value.Provable?
    ensures BodyPartials(ix, body, fuel).value.partials ==
              CrossMerge(BodyPartials(ix, body[..|body| - 1], fuel).value.partials,
                         Derivations(ix, body[|body| - 1], Defeasible, fuel - 1).value.derivations)
  {
  }

  lemma GroundedCrossMerge(ix: RuleIndex, ws: seq<Derivation>, ps: seq<Derivation>)
    requires forall w :: w in ws ==> Grounded(ix, w)
    requires forall p :: p in ps ==> Grounded(ix, p)
    ensures forall c :: c in CrossMerge(ws, ps) ==> Grounded(ix, c)
  {
    forall c | c in CrossMerge(ws, ps) ensures Grounded(ix, c) {
      var w, p := MergedFrom(ws, ps, c);
      assert Grounded(ix, w) && Grounded(ix, p);
    }
  }

  // ---------------------------------------------------------------------
  // The fuel bound only cuts off searches, it never changes an answer

  /** An answer reached with some fuel (anything but FuelExhausted) is the
      answer with any larger fuel: the bound only cuts off searches the
      unbounded algorithm would also have to go through. */
  lemma {:induction false} DerivationsFuel(ix: RuleIndex, literal: Literal, mode: RuleType, fuel: nat, more: nat)
    requires fuel <= more
    requires Derivations(ix, literal, mode, fuel) != Fail(FuelExhausted)
    ensures Derivations(ix, literal, mode, more) == Derivations(ix, literal, mode, fuel)
    decreases fuel, 4, 0
  {
    if literal.IsGround() && ix.facts != {} && literal in ix.Select(mode) {
      ResultsFuel(ix, ix.Select(mode)[literal], fuel, more);
    }
  }

  lemma {:induction false} ResultsFuel(ix: RuleIndex, rules: seq<Rule>, fuel: nat, more: nat)
    requires fuel <= more
    requires RuleResults(ix, rules, fuel) != Fail(FuelExhausted)
    ensures RuleResults(ix, rules, more) == RuleResults(ix, rules, fuel)
    decreases fuel, 3, |rules|
  {
    if rules != [] {
      ResultsFuel(ix, rules[..|rules| - 1], fuel, more);
      if RuleResults(ix, rules[..|rules| - 1], fuel).Ok? {
        ContributionFuel(ix, rules[|rules| - 1], fuel, more);
      }
    }
  }

  lemma {:induction false} ContributionFuel(ix: RuleIndex, rule: Rule, fuel: nat, more: nat)
    requires fuel <= more
    requires Contribution(ix, rule, fuel) != Fail(FuelExhausted)
    ensures Contribution(ix, rule, more) == Contribution(ix, rule, fuel)
    decreases fuel, 2, 0
  {
    BodyFuel(ix, rule.body, fuel, more);
  }

  lemma {:induction false} BodyFuel(ix: RuleIndex, body: seq<Literal>, fuel: nat, more: nat)
    requires fuel <= more
    requires BodyPartials(ix, body, fuel) != Fail(FuelExhausted)
    ensures BodyPartials(ix, body, more) == BodyPartials(ix, body, fuel)
    decreases fuel, 1, |body|
  {
    if body != [] {
      var prefix := body[..|body| - 1];
      var b := body[|body| - 1];
      BodyPrefixFuel(ix, body, fuel);
      BodyFuel(ix, prefix, fuel, more);
      var before := BodyPartials(ix, prefix, fuel);
      if before.Ok? && before.value.Partials? {
        BodyLiteralFuel(ix, body, fuel);
        DerivationsFuel(ix, b, Defeasible, fuel - 1, more - 1);
      }
      BodySameInputs(ix, body, fuel, more);
    }
  }

  /** A body that did not run out of fuel did not run out on its prefix. */
  lemma BodyPrefixFuel(ix: RuleIndex, body: seq<Literal>, fuel: nat)
    requires body != [] && BodyPartials(ix, body, fuel) != Fail(FuelExhausted)
    ensures BodyPartials(ix, body[..|body| - 1], fuel) != Fail(FuelExhausted)
  {
  }

  /** ... nor on its last literal, when that literal was reached. */
  lemma BodyLiteralFuel(ix: RuleIndex, body: seq<Literal>, fuel: nat)
    requires body != [] && BodyPartials(ix, body, fuel) != Fail(FuelExhausted)
    requires BodyPartials(ix, body[..|body| - 1], fuel).Ok?
    requires BodyPartials(ix, body[..|body| - 1], fuel).value.Partials?
    ensures fuel > 0 && Derivations(ix, body[|body| - 1], Defeasible, fuel - 1) != Fail(FuelExhausted)
  {
  }

  /** The last step of a body gives the same working set when its prefix and
      its last literal do. */
  lemma BodySameInputs(ix: RuleIndex, body: seq<Literal>, fuel: nat, more: nat)
    requires body != [] && fuel <= more
    requires BodyPartials(ix, body, fuel) != Fail(FuelExhausted)
    requires BodyPartials(ix, body[..|body| - 1], more) == BodyPartials(ix, body[..|body| - 1], fuel)
    requires BodyPartials(ix, body[..|body| - 1], fuel).Ok? && BodyPartials(ix, body[..|body| - 1], fuel).value.Partials? ==>
               fuel > 0 && Derivations(ix, body[|body| - 1], Defeasible, more - 1) == Derivations(ix, body[|body| - 1], Defeasible, fuel - 1)
    ensures BodyPartials(ix, body, more) == BodyPartials(ix, body, fuel)
  {
  }
}
