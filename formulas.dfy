/**
 * The formula tree of classical propositional logic: seven variants, each
 * immutable. The source's visitor dispatch (`acceptVisitor`) is Dafny's `match`.
 */
module Formulas {
  import opened Wrappers

  datatype Formula =
    | Implication(left: Formula, right: Formula)
    | Conjunction(left: Formula, right: Formula)
    | Disjunction(left: Formula, right: Formula)
    | Negation(formula: Formula)
    | Variable(name: string)
    | Truth
    | Falsity

  predicate IsLetter(c: char) {
    ('A' <= c <= 'Z') || ('a' <= c <= 'z')
  }

  predicate IsNumber(c: char) {
    '0' <= c <= '9'
  }

  predicate IsAlphanumeric(c: char) {
    IsLetter(c) || IsNumber(c)
  }

  /** The strings the source accepts as variable text: every character is in A-Z, a-z or 0-9. */
  predicate VariableText(s: string) {
    forall i :: 0 <= i < |s| ==> IsAlphanumeric(s[i])
  }

  /**
   * `isVariableText`: anything that is not a string (the parser's `peek` past
   * the end yields `undefined`, here `None`) is rejected; a string is accepted
   * when every character is alphanumeric, so the empty string is accepted.
   */
  method IsVariableText(thing: Option<string>) returns (b: bool)
    ensures b <==> thing.Some? && VariableText(thing.value)
  {
    if thing.None? {
      return false;
    }
    var s := thing.value;
    var i := 0;
    while i < |s|
      invariant 0 <= i <= |s|
      invariant forall k :: 0 <= k < i ==> IsAlphanumeric(s[k])
    {
      if !IsAlphanumeric(s[i]) {
        return false;
      }
      i := i + 1;
    }
    return true;
  }

  /** Number of nodes; a termination measure. */
  function Size(f: Formula): nat {
    match f
    case Implication(l, r) => Size(l) + Size(r) + 1
    case Conjunction(l, r) => Size(l) + Size(r) + 1
    case Disjunction(l, r) => Size(l) + Size(r) + 1
    case Negation(g) => Size(g) + 1
    case Variable(_) => 1
    case Truth => 1
    case Falsity => 1
  }

  /** Number of connective occurrences (Implication, Conjunction, Disjunction, Negation nodes). */
  function Connectives(f: Formula): nat {
    match f
    case Implication(l, r) => Connectives(l) + Connectives(r) + 1
    case Conjunction(l, r) => Connectives(l) + Connectives(r) + 1
    case Disjunction(l, r) => Connectives(l) + Connectives(r) + 1
    case Negation(g) => Connectives(g) + 1
    case Variable(_) => 0
    case Truth => 0
    case Falsity => 0
  }

  /** The names of the variables occurring in `f`. */
  function VarSet(f: Formula): set<string> {
    match f
    case Implication(l, r) => VarSet(l) + VarSet(r)
    case Conjunction(l, r) => VarSet(l) + VarSet(r)
    case Disjunction(l, r) => VarSet(l) + VarSet(r)
    case Negation(g) => VarSet(g)
    case Variable(n) => {n}
    case Truth => {}
    case Falsity => {}
  }

  predicate ImplicationFree(f: Formula) {
    match f
    case Implication(_, _) => false
    case Conjunction(l, r) => ImplicationFree(l) && ImplicationFree(r)
    case Disjunction(l, r) => ImplicationFree(l) && ImplicationFree(r)
    case Negation(g) => ImplicationFree(g)
    case _ => true
  }

  predicate ConstantFree(f: Formula) {
    match f
    case Implication(l, r) => ConstantFree(l) && ConstantFree(r)
    case Conjunction(l, r) => ConstantFree(l) && ConstantFree(r)
    case Disjunction(l, r) => ConstantFree(l) && ConstantFree(r)
    case Negation(g) => ConstantFree(g)
    case Variable(_) => true
    case Truth => false
    case Falsity => false
  }

  /** A literal: a variable or the negation of a variable. */
  predicate IsLiteral(f: Formula) {
    f.Variable? || (f.Negation? && f.formula.Variable?)
  }

  /** Negation normal form: no implications or constants, negation only directly over variables. */
  predicate IsNNF(f: Formula) {
    match f
    case Implication(_, _) => false
    case Conjunction(l, r) => IsNNF(l) && IsNNF(r)
    case Disjunction(l, r) => IsNNF(l) && IsNNF(r)
    case Negation(g) => g.Variable?
    case Variable(_) => true
    case Truth => false
    case Falsity => false
  }

  /** A conjunctive clause: a tree of conjunctions over literals. */
  predicate IsConjClause(f: Formula) {
    match f
    case Conjunction(l, r) => IsConjClause(l) && IsConjClause(r)
    case _ => IsLiteral(f)
  }

  /** Disjunctive normal form: a tree of disjunctions over conjunctive clauses. */
  predicate IsDNF(f: Formula) {
    match f
    case Disjunction(l, r) => IsDNF(l) && IsDNF(r)
    case _ => IsConjClause(f)
  }

  /** A disjunctive clause: a tree of disjunctions over literals. */
  predicate IsDisjClause(f: Formula) {
    match f
    case Disjunction(l, r) => IsDisjClause(l) && IsDisjClause(r)
    case _ => IsLiteral(f)
  }

  /** Conjunctive normal form: a tree of conjunctions over disjunctive clauses. */
  predicate IsCNF(f: Formula) {
    match f
    case Conjunction(l, r) => IsCNF(l) && IsCNF(r)
    case _ => IsDisjClause(f)
  }

  lemma {:induction false} DNFIsNNF(f: Formula)
    requires IsDNF(f)
    ensures IsNNF(f)
  {
    match f
    case Disjunction(l, r) =>
      DNFIsNNF(l);
      DNFIsNNF(r);
    case _ =>
      ClauseIsNNF(f);
  }

  lemma {:induction false} ClauseIsNNF(f: Formula)
    requires IsConjClause(f)
    ensures IsNNF(f)
  {
    match f
    case Conjunction(l, r) =>
      ClauseIsNNF(l);
      ClauseIsNNF(r);
    case _ =>
  }
}
