/** `ConnectivePrinter`: the class name of a formula's root variant. */
module ConnectivePrinter {
  import opened Formulas

  /** The `connectives` list, in the source's order. */
  const ConnectiveNames: seq<string> :=
    ["Implication", "Conjunction", "Disjunction", "Negation", "Variable", "Truth", "Falsity"]

  /** Position of the root variant in `ConnectiveNames`; operands are not inspected. */
  function VariantIndex(f: Formula): (i: nat)
    ensures i < |ConnectiveNames|
  {
    match f
    case Implication(_, _) => 0
    case Conjunction(_, _) => 1
    case Disjunction(_, _) => 2
    case Negation(_) => 3
    case Variable(_) => 4
    case Truth => 5
    case Falsity => 6
  }

  /** The printed name, which is always a member of the `connectives` list. */
  function ConnectiveName(f: Formula): (name: string)
    ensures name in ConnectiveNames
  {
    match f
    case Implication(_, _) => "Implication"
    case Conjunction(_, _) => "Conjunction"
    case Disjunction(_, _) => "Disjunction"
    case Negation(_) => "Negation"
    case Variable(_) => "Variable"
    case Truth => "Truth"
    case Falsity => "Falsity"
  }

  /** Two formulas print the same name exactly when their root variants agree. */
  lemma ConnectiveNameDistinct(f: Formula, g: Formula)
    ensures ConnectiveName(f) == ConnectiveName(g) <==> VariantIndex(f) == VariantIndex(g)
    ensures ConnectiveName(f) == ConnectiveNames[VariantIndex(f)]
  {
  }
}
