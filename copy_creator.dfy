/** `CopyCreator`: the structural deep copy of a formula. */
module CopyCreator {
  import opened Formulas

  /**
   * Connective nodes are rebuilt over copies of their operands, in order;
   * variables and constants are returned as they are. On immutable values the
   * copy is the formula itself, and it is defined for all seven variants.
   */
  function Copy(f: Formula): (c: Formula)
    ensures c == f
  {
    match f
    case Implication(l, r) => Implication(Copy(l), Copy(r))
    case Conjunction(l, r) => Conjunction(Copy(l), Copy(r))
    case Disjunction(l, r) => Disjunction(Copy(l), Copy(r))
    case Negation(g) => Negation(Copy(g))
    case Variable(_) => f
    case Truth => f
    case Falsity => f
  }
}
