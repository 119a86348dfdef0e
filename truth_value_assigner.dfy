/**
 * Truth values of formulas. `Sem` is the classical semantics under a total
 * assignment; `Eval` is the source's evaluator under a finite assignment map,
 * which evaluates left to right with the short-circuiting of `!`, `&&` and `||`
 * and fails on a variable that has no entry in the map.
 */
module TruthValues {
  import opened Wrappers
  import opened Formulas

  /** Classical truth value of `f` when every variable name is given a value by `a`. */
  function Sem(f: Formula, a: string -> bool): bool {
    match f
    case Implication(l, r) => !Sem(l, a) || Sem(r, a)
    case Conjunction(l, r) => Sem(l, a) && Sem(r, a)
    case Disjunction(l, r) => Sem(l, a) || Sem(r, a)
    case Negation(g) => !Sem(g, a)
    case Variable(n) => a(n)
    case Truth => true
    case Falsity => false
  }

  /** Two formulas are equivalent when they agree under every total assignment. */
  ghost predicate Equivalent(f: Formula, g: Formula) {
    forall a: string -> bool :: Sem(f, a) == Sem(g, a)
  }

  /** The total assignment `a` agrees with every entry of the map `m`. */
  ghost predicate Extends(a: string -> bool, m: map<string, bool>) {
    forall n :: n in m ==> a(n) == m[n]
  }

  /** The error the evaluator throws: a variable without an entry in the map. */
  datatype EvalError = Unassigned(name: string)

  /**
   * `TruthValueAssigner`. A failure names a variable of `f` that the map
   * lacks, and a map that covers every variable of `f` never fails.
   */
  function Eval(f: Formula, m: map<string, bool>): (r: Result<bool, EvalError>)
    ensures r.Err? ==> r.error.name in VarSet(f) && r.error.name !in m
    ensures VarSet(f) <= m.Keys ==> r.Ok?
  {
    match f
    case Implication(l, r) =>
      var x :- Eval(l, m);
      if !x then Ok(true) else Eval(r, m)
    case Conjunction(l, r) =>
      var x :- Eval(l, m);
      if !x then Ok(false) else Eval(r, m)
    case Disjunction(l, r) =>
      var x :- Eval(l, m);
      if x then Ok(true) else Eval(r, m)
    case Negation(g) =>
      var x :- Eval(g, m);
      Ok(!x)
    case Variable(n) =>
      if n in m then Ok(m[n]) else Err(Unassigned(n))
    case Truth => Ok(true)
    case Falsity => Ok(false)
  }

  /**
   * A value the evaluator returns is the classical truth value under every
   * total assignment that extends the map, even when the map misses variables
   * that short-circuiting skipped.
   */
  lemma {:induction false} EvalSound(f: Formula, m: map<string, bool>, a: string -> bool)
    requires Eval(f, m).Ok? && Extends(a, m)
    ensures Eval(f, m).value == Sem(f, a)
  {
    match f
    case Implication(l, r) =>
      EvalSound(l, m, a);
      if Eval(l, m).value { EvalSound(r, m, a); }
    case Conjunction(l, r) =>
      EvalSound(l, m, a);
      if Eval(l, m).value { EvalSound(r, m, a); }
    case Disjunction(l, r) =>
      EvalSound(l, m, a);
      if !Eval(l, m).value { EvalSound(r, m, a); }
    case Negation(g) =>
      EvalSound(g, m, a);
    case Variable(n) =>
    case Truth =>
    case Falsity =>
  }

  /** The right operand is not consulted once the left one decides the result. */
  lemma ShortCircuit(l: Formula, r: Formula, m: map<string, bool>)
    ensures Eval(l, m) == Ok(false) ==> Eval(Implication(l, r), m) == Ok(true)
    ensures Eval(l, m) == Ok(false) ==> Eval(Conjunction(l, r), m) == Ok(false)
    ensures Eval(l, m) == Ok(true) ==> Eval(Disjunction(l, r), m) == Ok(true)
  {
  }

  /** The truth value of `f` depends only on the values of its own variables. */
  lemma {:induction false} SemLocal(f: Formula, a: string -> bool, b: string -> bool)
    requires forall n :: n in VarSet(f) ==> a(n) == b(n)
    ensures Sem(f, a) == Sem(f, b)
  {
    match f
    case Implication(l, r) => SemLocal(l, a, b); SemLocal(r, a, b);
    case Conjunction(l, r) => SemLocal(l, a, b); SemLocal(r, a, b);
    case Disjunction(l, r) => SemLocal(l, a, b); SemLocal(r, a, b);
    case Negation(g) => SemLocal(g, a, b);
    case Variable(_) =>
    case Truth =>
    case Falsity =>
  }
}
