/** `ImplicationRemover`: rewrites every a → b to ¬a ∨ b. */
module ImplicationRemover {
  import opened Formulas
  import opened TruthValues

  /**
   * The result has no implication and the same variables; an input that
   * already has no implication comes back unchanged, and constants stay
   * exactly where they were.
   */
  function RemoveImplications(f: Formula): (r: Formula)
    ensures ImplicationFree(r)
    ensures VarSet(r) == VarSet(f)
    ensures ConstantFree(r) <==> ConstantFree(f)
    ensures ImplicationFree(f) ==> r == f
  {
    match f
    case Implication(l, r) => Disjunction(Negation(RemoveImplications(l)), RemoveImplications(r))
    case Conjunction(l, r) => Conjunction(RemoveImplications(l), RemoveImplications(r))
    case Disjunction(l, r) => Disjunction(RemoveImplications(l), RemoveImplications(r))
    case Negation(g) => Negation(RemoveImplications(g))
    case Variable(n) => Variable(n)
    case Truth => f
    case Falsity => f
  }

  /** The rewrite has the same truth value as the input under every total assignment. */
  lemma {:induction false} RemoveImplicationsSem(f: Formula, a: string -> bool)
    ensures Sem(RemoveImplications(f), a) == Sem(f, a)
  {
    match f
    case Implication(l, r) => RemoveImplicationsSem(l, a); RemoveImplicationsSem(r, a);
    case Conjunction(l, r) => RemoveImplicationsSem(l, a); RemoveImplicationsSem(r, a);
    case Disjunction(l, r) => RemoveImplicationsSem(l, a); RemoveImplicationsSem(r, a);
    case Negation(g) => RemoveImplicationsSem(g, a);
    case Variable(_) =>
    case Truth =>
    case Falsity =>
  }

  lemma RemoveImplicationsEquivalent(f: Formula)
    ensures Equivalent(RemoveImplications(f), f)
  {
    forall a: string -> bool
      ensures Sem(RemoveImplications(f), a) == Sem(f, a)
    {
      RemoveImplicationsSem(f, a);
    }
  }
}
