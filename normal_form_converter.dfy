/**
 * `NormalFormConverter`: stores the implication-free rewrite of a formula and
 * converts it with the strategy it was built with.
 */
module NFConverter {
  import opened Wrappers
  import opened Formulas
  import opened TruthValues
  import opened ImplicationRemover
  import opened NFConverterStrategy
  import opened SemanticStrategies

  /** The strategies of the three strategy tables; NNF has only a syntactic one. */
  datatype Strategy =
    | SyntacticDnf
    | SemanticDnf
    | SyntacticCnf
    | SemanticCnf
    | SyntacticNnf

  /** `strategy.convert(formula)`, each strategy as written. */
  function Convert(strategy: Strategy, f: Formula): Result<Formula, NFError> {
    match strategy
    case SyntacticDnf => Dnf(f, false)
    case SemanticDnf => SemanticDnfOf(f)
    case SyntacticCnf => Cnf(f)
    case SemanticCnf => SemanticCnfOf(f)
    case SyntacticNnf => Nnf(f, false)
  }

  /**
   * Every strategy but the syntactic CNF keeps the truth value of what it
   * converts whenever it succeeds.
   */
  lemma ConvertSem(strategy: Strategy, f: Formula, a: string -> bool)
    requires strategy != SyntacticCnf && Convert(strategy, f).Ok?
    ensures Sem(Convert(strategy, f).value, a) == Sem(f, a)
  {
    match strategy
    case SyntacticDnf => DnfSem(f, false, a);
    case SemanticDnf => SemanticDnfSem(f, a);
    case SemanticCnf => SemanticCnfSem(f, a);
    case SyntacticNnf => NnfSem(f, false, a);
  }

  class NormalFormConverter {
    var withoutImplications: Formula
    const strategy: Strategy

    /** The stored formula never has an implication. */
    ghost predicate Valid()
      reads this
    {
      ImplicationFree(withoutImplications)
    }

    /** Stores the implication-free rewrite; the default strategy is the syntactic DNF. */
    constructor(formula: Formula, strategy: Strategy := SyntacticDnf)
      ensures withoutImplications == RemoveImplications(formula)
      ensures this.strategy == strategy
      ensures Valid()
    {
      withoutImplications := RemoveImplications(formula);
      this.strategy := strategy;
    }

    /** The `formula` setter: replaces the stored formula, keeps the strategy. */
    method SetFormula(formula: Formula)
      modifies this
      ensures withoutImplications == RemoveImplications(formula)
      ensures Valid()
    {
      withoutImplications := RemoveImplications(formula);
    }

    /**
     * `getConvertedFormula`: the strategy applied to the stored formula.
     * Nothing changes; the stored formula has no implication, so the
     * syntactic DNF fails only on a constant.
     */
    method GetConvertedFormula() returns (r: Result<Formula, NFError>)
      requires Valid()
      ensures r == Convert(strategy, withoutImplications)
      ensures strategy == SyntacticDnf ==> (r.Ok? <==> ConstantFree(withoutImplications))
    {
      match strategy
      case SyntacticDnf => r := Dnf(withoutImplications, false);
      case SemanticDnf => r := SemanticStrategies.SemanticDnf(withoutImplications);
      case SyntacticCnf => r := Cnf(withoutImplications);
      case SemanticCnf => r := SemanticStrategies.SemanticCnf(withoutImplications);
      case SyntacticNnf => r := Nnf(withoutImplications, false);
    }
  }

  /**
   * What a converter built from `formula` returns is, for every strategy but
   * the syntactic CNF, equivalent to `formula` itself, implications included;
   * with the default strategy it succeeds exactly when `formula` has no
   * constant.
   */
  lemma ConverterKeepsMeaning(formula: Formula, strategy: Strategy, a: string -> bool)
    requires strategy != SyntacticCnf && Convert(strategy, RemoveImplications(formula)).Ok?
    ensures Sem(Convert(strategy, RemoveImplications(formula)).value, a) == Sem(formula, a)
    ensures Convert(SyntacticDnf, RemoveImplications(formula)).Ok? <==> ConstantFree(formula)
  {
    ConvertSem(strategy, RemoveImplications(formula), a);
    RemoveImplicationsSem(formula, a);
  }
}
