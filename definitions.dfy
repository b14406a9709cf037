/** The rule language the derivation engine consumes: literals, rule types and
    rules. Only the parts the engine relies on are modelled: structural
    equality of literals, the ground test, and a rule's head, body and type. */
module Definitions {

  /** An argument of a literal: a constant or a (not yet bound) variable. */
  datatype Term = Constant(name: string) | Variable(name: string)

  /** A possibly strongly negated predicate applied to its arguments.
      Equality is structural, as the engine keys its indexes by literals. */
  datatype Literal = Literal(negated: bool, functor: string, terms: seq<Term>)
  {
    /** A literal is ground when none of its arguments is a variable. */
    predicate IsGround() {
      forall t :: t in terms ==> t.Constant?
    }
  }

  datatype RuleType = Strict | Defeasible

  /** `head <- body` (strict) or `head -< body` (defeasible); a rule with an
      empty body is a fact. */
  datatype Rule = Rule(head: Literal, body: seq<Literal>, kind: RuleType)
  {
    predicate IsFact() {
      |body| == 0
    }
  }
}
