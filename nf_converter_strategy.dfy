/**
 * The syntactic normal-form strategies: the DNF visitor (double negation,
 * De Morgan, distribution), the CNF strategy that dualises the DNF of the
 * negated formula, and the NNF visitor pair.  Each visitor's thrown errors
 * become `Err`.  Where a visitor misses a case the formula class it names
 * is not reached; a corrected version stands beside it.
 */
module NFConverterStrategy {
  import opened Wrappers
  import opened Formulas
  import opened TruthValues
  import opened ImplicationRemover
  import opened TruthTableCreator

  /** What the strategies throw. */
  datatype NFError =
    | ImplicationFound
    | TruthFound
    | FalsityFound
    | VariableThrown(name: string)  // the CNF step throws the variable object itself
    | MissingInterpretation         // an interpretation read past the end of the list
    | MissingAssignment             // an assignment popped from an empty interpretation
    | RowNotFound                   // `getValue` found no matching row

  // ---------------------------------------------------------------------
  // Termination measure for the DNF visitor
  // ---------------------------------------------------------------------

  /**
   * A weight that every recursive call of the DNF visitor decreases:
   * distribution multiplies, De Morgan exponentiates.
   */
  function Weight(f: Formula): (w: nat)
    ensures w >= 2
  {
    match f
    case Conjunction(l, r) => AtLeastProduct(Weight(l), Weight(r)); Weight(l) * Weight(r)
    case Disjunction(l, r) => Weight(l) + Weight(r) + 1
    case Negation(g) => Pow2Exceeds(Weight(g)); Pow2(Weight(g))
    case _ => 2
  }

  lemma AtLeastProduct(x: nat, y: nat)
    requires x >= 2 && y >= 2
    ensures x < x * y && y < x * y
  {
  }

  lemma {:induction false} Pow2Exceeds(n: nat)
    ensures n < Pow2(n)
  {
    if n > 0 {
      Pow2Exceeds(n - 1);
    }
  }

  lemma {:induction false} Pow2Monotone(m: nat, n: nat)
    requires m <= n
    ensures Pow2(m) <= Pow2(n)
    ensures m < n ==> Pow2(m) < Pow2(n)
  {
    if m < n {
      Pow2Monotone(m, n - 1);
    }
  }

  lemma {:induction false} Pow2Sum(m: nat, n: nat)
    ensures Pow2(m + n) == Pow2(m) * Pow2(n)
  {
    if m > 0 {
      Pow2Sum(m - 1, n);
      assert Pow2(m + n) == 2 * Pow2(m - 1 + n);
    }
  }

  lemma MultiplyMonotone(a: nat, b: nat, c: nat, d: nat)
    requires a <= c && b <= d
    ensures a * b <= c * d
  {
    assert a * b <= c * b;
  }

  /** Right distribution: both new conjunctions and the new disjunction stay below the conjunction's weight. */
  lemma DistributeRightBound(x: nat, y: nat, u: nat, p: nat, q: nat)
    requires 2 <= u <= x && 2 <= p && 2 <= q && p + q + 1 <= y
    ensures u * p < x * y && u * q < x * y && u * p + u * q + 1 <= x * y
  {
    MultiplyMonotone(u, p + q + 1, x, y);
    assert u * (p + q + 1) == u * p + u * q + u;
  }

  /** Left distribution, the mirror image. */
  lemma DistributeLeftBound(x: nat, y: nat, v: nat, p: nat, q: nat)
    requires 2 <= v <= y && 2 <= p && 2 <= q && p + q + 1 <= x
    ensures p * v < x * y && q * v < x * y && p * v + q * v + 1 <= x * y
  {
    MultiplyMonotone(p + q + 1, v, x, y);
    assert (p + q + 1) * v == p * v + q * v + v;
  }

  /** De Morgan over a disjunction: the product of the two negations' weights stays below ¬(a ∨ b)'s. */
  lemma NegatedDisjunctionBound(s: nat, t: nat, w: nat, wa: nat, wb: nat)
    requires s + t + 1 <= w && wa <= Pow2(s) && wb <= Pow2(t)
    ensures wa * wb < Pow2(w)
  {
    MultiplyMonotone(wa, wb, Pow2(s), Pow2(t));
    Pow2Sum(s, t);
    Pow2Monotone(s + t, w);
  }

  /** De Morgan over a conjunction: ¬a ∨ ¬b weighs less than ¬(a ∧ b). */
  lemma NegatedConjunctionBound(s: nat, t: nat, w: nat)
    requires 2 <= s && 2 <= t && s * t <= w
    ensures Pow2(s) + Pow2(t) + 1 < Pow2(w)
  {
    SumAtMostProduct(s, t);
    SumBound(s, t, w);
  }

  lemma SumBound(s: nat, t: nat, w: nat)
    requires 2 <= s && 2 <= t && s + t <= w
    ensures Pow2(s) + Pow2(t) + 1 < Pow2(w)
  {
    Pow2SumExceeds(s, t);
    Pow2Monotone(s + t, w);
  }

  lemma Pow2SumExceeds(s: nat, t: nat)
    requires 2 <= s && 2 <= t
    ensures Pow2(s) + Pow2(t) + 1 < Pow2(s + t)
  {
    Pow2AtLeastFour(s);
    Pow2AtLeastFour(t);
    SumBelowProduct(Pow2(s), Pow2(t));
    Pow2Sum(s, t);
  }

  lemma Pow2AtLeastFour(s: nat)
    requires 2 <= s
    ensures 4 <= Pow2(s)
  {
    Pow2Monotone(2, s);
    assert Pow2(2) == 4;
  }

  lemma SumBelowProduct(p: nat, q: nat)
    requires 4 <= p && 4 <= q
    ensures p + q + 1 < p * q
  {
    MultiplyMonotone(p, 4, p, q);
    MultiplyMonotone(4, q, p, q);
  }

  lemma SumAtMostProduct(s: nat, t: nat)
    requires 2 <= s && 2 <= t
    ensures s + t <= s * t
  {
    MultiplyMonotone(s, 2, s, t);
    MultiplyMonotone(2, t, s, t);
  }

  lemma {:induction false} NNFIsFree(f: Formula)
    requires IsNNF(f)
    ensures ImplicationFree(f) && ConstantFree(f)
  {
    match f
    case Conjunction(l, r) => NNFIsFree(l); NNFIsFree(r);
    case Disjunction(l, r) => NNFIsFree(l); NNFIsFree(r);
    case _ =>
  }

  // ---------------------------------------------------------------------
  // Syntactic DNF, as written
  // ---------------------------------------------------------------------

  /**
   * `DNFConverterStrategies.syntactic`: converts the right operand of a
   * conjunction before the left, then distributes; removes double negations
   * and applies De Morgan.  Fails exactly on implications and constants; the
   * result is in negation normal form, no heavier than the input and over
   * no new variables.
   *
   * `reconvert` false is the strategy as written: the conjunction that De
   * Morgan builds from ¬(a ∨ b) is not converted again, so a disjunction can
   * end up below it.  `reconvert` true converts it again, and then the result
   * is in disjunctive normal form.
   */
  function Dnf(f: Formula, reconvert: bool): (r: Result<Formula, NFError>)
    ensures r.Ok? <==> ImplicationFree(f) && ConstantFree(f)
    ensures r.Ok? ==> IsNNF(r.value) && Weight(r.value) <= Weight(f) && VarSet(r.value) <= VarSet(f)
    ensures r.Ok? && reconvert ==> IsDNF(r.value)
    decreases Weight(f), 1
  {
    match f
    case Implication(_, _) => Err(ImplicationFound)
    case Conjunction(left, right) =>
      AtLeastProduct(Weight(left), Weight(right));
      var pr :- Dnf(right, reconvert);
      var pl :- Dnf(left, reconvert);
      MultiplyMonotone(Weight(pl), Weight(pr), Weight(left), Weight(right));
      Ok(Distribute(pl, pr, reconvert))
    case Disjunction(left, right) =>
      var a :- Dnf(left, reconvert);
      var b :- Dnf(right, reconvert);
      Ok(Disjunction(a, b))
    case Negation(g) =>
      Pow2Exceeds(Weight(g));
      var p :- Dnf(g, reconvert);
      Pow2Monotone(Weight(p), Weight(g));
      Ok(Negated(p, reconvert))
    case Variable(_) => Ok(f)
    case Truth => Err(TruthFound)
    case Falsity => Err(FalsityFound)
  }

  /**
   * The conjunction case once both operands are converted: distributes over
   * the right operand if it is a disjunction, else over the left one, and
   * converts each new conjunction again.
   */
  function Distribute(x: Formula, z: Formula, reconvert: bool): (r: Formula)
    requires IsNNF(x) && IsNNF(z)
    requires reconvert ==> IsDNF(x) && IsDNF(z)
    ensures IsNNF(r) && Weight(r) <= Weight(Conjunction(x, z)) && VarSet(r) <= VarSet(x) + VarSet(z)
    ensures reconvert ==> IsDNF(r)
    decreases Weight(Conjunction(x, z)), 0
  {
    if z.Disjunction? then
      DistributeRightBound(Weight(x), Weight(z), Weight(x), Weight(z.left), Weight(z.right));
      NNFIsFree(x);
      NNFIsFree(z.left);
      NNFIsFree(z.right);
      var a := Dnf(Conjunction(x, z.left), reconvert).value;
      var b := Dnf(Conjunction(x, z.right), reconvert).value;
      Disjunction(a, b)
    else if x.Disjunction? then
      DistributeLeftBound(Weight(x), Weight(z), Weight(z), Weight(x.left), Weight(x.right));
      NNFIsFree(x.left);
      NNFIsFree(x.right);
      NNFIsFree(z);
      var a := Dnf(Conjunction(x.left, z), reconvert).value;
      var b := Dnf(Conjunction(x.right, z), reconvert).value;
      Disjunction(a, b)
    else
      Conjunction(x, z)
  }

  /**
   * The negation case once the operand `p` is converted: a double negation
   * is dropped and the rest converted again, ¬(a ∨ b) becomes the
   * conjunction of the converted ¬a and ¬b, ¬(a ∧ b) is converted as
   * ¬a ∨ ¬b, and a negated variable stays.
   */
  function Negated(p: Formula, reconvert: bool): (r: Formula)
    requires IsNNF(p)
    requires reconvert ==> IsDNF(p)
    ensures IsNNF(r) && Weight(r) <= Weight(Negation(p)) && VarSet(r) <= VarSet(p)
    ensures reconvert ==> IsDNF(r)
    decreases Weight(Negation(p)), 0
  {
    if p.Negation? then
      Pow2Exceeds(Weight(p.formula));
      Pow2Exceeds(Weight(p));
      Dnf(p.formula, reconvert).value
    else if p.Disjunction? then
      Pow2Monotone(Weight(p.left), Weight(p));
      Pow2Monotone(Weight(p.right), Weight(p));
      NNFIsFree(p.left);
      NNFIsFree(p.right);
      var a := Dnf(Negation(p.left), reconvert).value;
      var b := Dnf(Negation(p.right), reconvert).value;
      NegatedDisjunctionBound(Weight(p.left), Weight(p.right), Weight(p), Weight(a), Weight(b));
      if reconvert then
        NNFIsFree(a);
        NNFIsFree(b);
        Dnf(Conjunction(a, b), reconvert).value
      else
        Conjunction(a, b)
    else if p.Conjunction? then
      NegatedConjunctionBound(Weight(p.left), Weight(p.right), Weight(p));
      NNFIsFree(p.left);
      NNFIsFree(p.right);
      var d := Disjunction(Negation(p.left), Negation(p.right));
      assert Weight(d) == Pow2(Weight(p.left)) + Pow2(Weight(p.right)) + 1;
      Dnf(d, reconvert).value
    else
      Negation(p)
  }

  /** The conversion keeps the truth value under every assignment. */
  lemma {:induction false} DnfSem(f: Formula, reconvert: bool, a: string -> bool)
    requires Dnf(f, reconvert).Ok?
    ensures Sem(Dnf(f, reconvert).value, a) == Sem(f, a)
    decreases Weight(f), 1
  {
    match f
    case Conjunction(left, right) =>
      AtLeastProduct(Weight(left), Weight(right));
      DnfSem(right, reconvert, a);
      DnfSem(left, reconvert, a);
      var pr, pl := Dnf(right, reconvert).value, Dnf(left, reconvert).value;
      MultiplyMonotone(Weight(pl), Weight(pr), Weight(left), Weight(right));
      DistributeSem(pl, pr, reconvert, a);
    case Disjunction(left, right) =>
      DnfSem(left, reconvert, a);
      DnfSem(right, reconvert, a);
    case Negation(g) =>
      Pow2Exceeds(Weight(g));
      DnfSem(g, reconvert, a);
      var p := Dnf(g, reconvert).value;
      Pow2Monotone(Weight(p), Weight(g));
      NegatedSem(p, reconvert, a);
    case Variable(_) =>
  }

  lemma {:induction false} DistributeSem(x: Formula, z: Formula, reconvert: bool, a: string -> bool)
    requires IsNNF(x) && IsNNF(z)
    requires reconvert ==> IsDNF(x) && IsDNF(z)
    ensures Sem(Distribute(x, z, reconvert), a) == (Sem(x, a) && Sem(z, a))
    decreases Weight(Conjunction(x, z)), 0
  {
    if z.Disjunction? {
      DistributeRightBound(Weight(x), Weight(z), Weight(x), Weight(z.left), Weight(z.right));
      NNFIsFree(x);
      NNFIsFree(z.left);
      NNFIsFree(z.right);
      DnfSem(Conjunction(x, z.left), reconvert, a);
      DnfSem(Conjunction(x, z.right), reconvert, a);
    } else if x.Disjunction? {
      DistributeLeftBound(Weight(x), Weight(z), Weight(z), Weight(x.left), Weight(x.right));
      NNFIsFree(x.left);
      NNFIsFree(x.right);
      NNFIsFree(z);
      DnfSem(Conjunction(x.left, z), reconvert, a);
      DnfSem(Conjunction(x.right, z), reconvert, a);
    }
  }

  lemma {:induction false} NegatedSem(p: Formula, reconvert: bool, a: string -> bool)
    requires IsNNF(p)
    requires reconvert ==> IsDNF(p)
    ensures Sem(Negated(p, reconvert), a) == !Sem(p, a)
    decreases Weight(Negation(p)), 0
  {
    if p.Negation? {
      Pow2Exceeds(Weight(p.formula));
      Pow2Exceeds(Weight(p));
      DnfSem(p.formula, reconvert, a);
    } else if p.Disjunction? {
      Pow2Monotone(Weight(p.left), Weight(p));
      Pow2Monotone(Weight(p.right), Weight(p));
      NNFIsFree(p.left);
      NNFIsFree(p.right);
      DnfSem(Negation(p.left), reconvert, a);
      DnfSem(Negation(p.right), reconvert, a);
      if reconvert {
        var l := Dnf(Negation(p.left), reconvert).value;
        var r := Dnf(Negation(p.right), reconvert).value;
        NegatedDisjunctionBound(Weight(p.left), Weight(p.right), Weight(p), Weight(l), Weight(r));
        NNFIsFree(l);
        NNFIsFree(r);
        DnfSem(Conjunction(l, r), reconvert, a);
      }
    } else if p.Conjunction? {
      NegatedConjunctionBound(Weight(p.left), Weight(p.right), Weight(p));
      NNFIsFree(p.left);
      NNFIsFree(p.right);
      var d := Disjunction(Negation(p.left), Negation(p.right));
      assert Weight(d) == Pow2(Weight(p.left)) + Pow2(Weight(p.right)) + 1;
      DnfSem(d, reconvert, a);
    }
  }

  /** Whenever the conversion succeeds its result is equivalent to the input. */
  lemma DnfEquivalent(f: Formula, reconvert: bool)
    requires Dnf(f, reconvert).Ok?
    ensures Equivalent(Dnf(f, reconvert).value, f)
  {
    forall a: string -> bool
      ensures Sem(Dnf(f, reconvert).value, a) == Sem(f, a)
    {
      DnfSem(f, reconvert, a);
    }
  }

  /** A formula already in disjunctive normal form comes back unchanged. */
  lemma {:induction false} DnfKeepsDnf(f: Formula, reconvert: bool)
    requires IsDNF(f)
    ensures Dnf(f, reconvert) == Ok(f)
  {
    match f
    case Disjunction(l, r) =>
      DnfKeepsDnf(l, reconvert);
      DnfKeepsDnf(r, reconvert);
    case _ =>
      ClauseKept(f, reconvert);
  }

  lemma {:induction false} ClauseKept(f: Formula, reconvert: bool)
    requires IsConjClause(f)
    ensures Dnf(f, reconvert) == Ok(f)
  {
    match f
    case Conjunction(l, r) =>
      ClauseKept(l, reconvert);
      ClauseKept(r, reconvert);
      ClauseIsNNF(l);
      ClauseIsNNF(r);
    case Negation(g) =>
    case Variable(_) =>
  }

  /**
   * As written, ¬((A ∧ B) ∨ C) converts to (¬A ∨ ¬B) ∧ ¬C, which is not in
   * disjunctive normal form; converting the De Morgan conjunction again
   * yields (¬A ∧ ¬C) ∨ (¬B ∧ ¬C).
   */
  lemma NegatedDisjunctionNotDistributed()
    ensures var f := Negation(Disjunction(Conjunction(Variable("A"), Variable("B")), Variable("C")));
      var asWritten := Conjunction(Disjunction(Negation(Variable("A")), Negation(Variable("B"))), Negation(Variable("C")));
      Dnf(f, false) == Ok(asWritten) && !IsDNF(asWritten) &&
      Dnf(f, true) == Ok(Disjunction(
        Conjunction(Negation(Variable("A")), Negation(Variable("C"))),
        Conjunction(Negation(Variable("B")), Negation(Variable("C")))))
  {
    AsWrittenNotDnf();
    NegatedDisjunctionAsWritten();
    NegatedDisjunctionRedone();
  }

  lemma AsWrittenNotDnf()
    ensures !IsDNF(Conjunction(Disjunction(Negation(Variable("A")), Negation(Variable("B"))), Negation(Variable("C"))))
  {
    var A, B := Variable("A"), Variable("B");
    assert !IsConjClause(Disjunction(Negation(A), Negation(B)));
  }

  lemma NegatedDisjunctionAsWritten()
    ensures var A, B, C := Variable("A"), Variable("B"), Variable("C");
      Dnf(Negation(Disjunction(Conjunction(A, B), C)), false)
      == Ok(Conjunction(Disjunction(Negation(A), Negation(B)), Negation(C)))
  {
    var A, B, C := Variable("A"), Variable("B"), Variable("C");
    assert Dnf(Negation(A), false) == Ok(Negation(A));
    assert Dnf(Negation(B), false) == Ok(Negation(B));
    assert Dnf(Negation(C), false) == Ok(Negation(C));
    assert Dnf(Conjunction(A, B), false) == Ok(Conjunction(A, B));
    assert Dnf(Negation(Conjunction(A, B)), false) == Ok(Disjunction(Negation(A), Negation(B)));
  }

  lemma NegatedDisjunctionRedone()
    ensures var A, B, C := Variable("A"), Variable("B"), Variable("C");
      Dnf(Negation(Disjunction(Conjunction(A, B), C)), true)
      == Ok(Disjunction(Conjunction(Negation(A), Negation(C)), Conjunction(Negation(B), Negation(C))))
  {
    var A, B, C := Variable("A"), Variable("B"), Variable("C");
    assert Dnf(Negation(A), true) == Ok(Negation(A));
    assert Dnf(Negation(B), true) == Ok(Negation(B));
    assert Dnf(Negation(C), true) == Ok(Negation(C));
    assert Dnf(Conjunction(A, B), true) == Ok(Conjunction(A, B));
    assert Dnf(Negation(Conjunction(A, B)), true) == Ok(Disjunction(Negation(A), Negation(B)));
    assert Dnf(Conjunction(Negation(A), Negation(C)), true) == Ok(Conjunction(Negation(A), Negation(C)));
    assert Dnf(Conjunction(Negation(B), Negation(C)), true) == Ok(Conjunction(Negation(B), Negation(C)));
  }

  // ---------------------------------------------------------------------
  // Syntactic CNF
  // ---------------------------------------------------------------------

  /**
   * `Step2Visitor`: a disjunction becomes a conjunction of its converted
   * operands, a conjunction a disjunction whose literal operands are
   * flipped and whose other operands are converted; a negation met outside
   * a conjunction stays as it is and a variable met there is thrown.
   */
  function Dualize(f: Formula): (r: Result<Formula, NFError>)
    decreases f, 0
  {
    match f
    case Implication(_, _) => Err(ImplicationFound)
    case Conjunction(l, r) =>
      var a :- Flipped(l);
      var b :- Flipped(r);
      Ok(Disjunction(a, b))
    case Disjunction(l, r) =>
      var a :- Dualize(l);
      var b :- Dualize(r);
      Ok(Conjunction(a, b))
    case Negation(g) => Ok(Negation(g))
    case Variable(n) => Err(VariableThrown(n))
    case Truth => Err(TruthFound)
    case Falsity => Err(FalsityFound)
  }

  /** `getNextFormula`: an operand of a conjunction. */
  function Flipped(c: Formula): Result<Formula, NFError>
    decreases c, 1
  {
    if c.Negation? then Ok(c.formula)
    else if c.Variable? then Ok(Negation(c))
    else Dualize(c)
  }

  /**
   * `CNFConverterStrategies.syntactic`: the syntactic DNF of ¬f, built by a
   * converter (so implications are removed first), then dualised.
   */
  function Cnf(f: Formula): (r: Result<Formula, NFError>)
    ensures r.Ok? ==> ConstantFree(f)
  {
    var negated := RemoveImplications(Negation(f));
    var d :- Dnf(negated, false);
    Dualize(d)
  }

  /**
   * Every literal of `f` sits directly under a conjunction: the shape on
   * which the dualisation flips every literal.
   */
  predicate LiteralsUnderConjunctions(f: Formula)
    decreases f, 0
  {
    match f
    case Conjunction(l, r) => LiteralOperand(l) && LiteralOperand(r)
    case Disjunction(l, r) => LiteralsUnderConjunctions(l) && LiteralsUnderConjunctions(r)
    case _ => false
  }

  predicate LiteralOperand(c: Formula)
    decreases c, 1
  {
    IsLiteral(c) || LiteralsUnderConjunctions(c)
  }

  /** On that shape the dualisation succeeds and negates the truth value. */
  lemma {:induction false} DualizeNegates(f: Formula, a: string -> bool)
    requires IsNNF(f) && LiteralsUnderConjunctions(f)
    ensures Dualize(f).Ok? && Sem(Dualize(f).value, a) == !Sem(f, a)
    decreases f, 0
  {
    match f
    case Conjunction(l, r) =>
      FlippedNegates(l, a);
      FlippedNegates(r, a);
    case Disjunction(l, r) =>
      DualizeNegates(l, a);
      DualizeNegates(r, a);
  }

  lemma {:induction false} FlippedNegates(c: Formula, a: string -> bool)
    requires IsNNF(c) && LiteralOperand(c)
    ensures Flipped(c).Ok? && Sem(Flipped(c).value, a) == !Sem(c, a)
    decreases c, 1
  {
    if !IsLiteral(c) {
      DualizeNegates(c, a);
    }
  }

  /**
   * So the syntactic CNF keeps the truth value whenever the DNF of the
   * negated input has every literal under a conjunction.
   */
  lemma CnfSemWhenShaped(f: Formula, a: string -> bool)
    requires Dnf(RemoveImplications(Negation(f)), false).Ok?
    requires LiteralsUnderConjunctions(Dnf(RemoveImplications(Negation(f)), false).value)
    ensures Cnf(f).Ok? && Sem(Cnf(f).value, a) == Sem(f, a)
  {
    var negated := RemoveImplications(Negation(f));
    DnfSem(negated, false, a);
    RemoveImplicationsSem(Negation(f), a);
    DualizeNegates(Dnf(negated, false).value, a);
  }

  /**
   * Elsewhere literals are not flipped: A ∧ B converts to ¬A ∧ ¬B and A to
   * ¬A, while ¬A fails by throwing A, and so does ¬A ∧ B, whose negation
   * converts to A ∨ ¬B.
   */
  lemma CnfLeavesBareLiterals()
    ensures Cnf(Conjunction(Variable("A"), Variable("B"))) == Ok(Conjunction(Negation(Variable("A")), Negation(Variable("B"))))
    ensures Cnf(Variable("A")) == Ok(Negation(Variable("A")))
    ensures Cnf(Negation(Variable("A"))) == Err(VariableThrown("A"))
    ensures Cnf(Conjunction(Negation(Variable("A")), Variable("B"))) == Err(VariableThrown("A"))
  {
    var A, B := Variable("A"), Variable("B");
    assert Dnf(Negation(A), false) == Ok(Negation(A));
    assert Dnf(Negation(B), false) == Ok(Negation(B));
    assert Dnf(Negation(Conjunction(A, B)), false) == Ok(Disjunction(Negation(A), Negation(B)));
    assert Dnf(Negation(Negation(A)), false) == Ok(A);
    assert Dnf(Negation(Conjunction(Negation(A), B)), false) == Ok(Disjunction(A, Negation(B)));
  }

  /** The corrected second step: swap ∧ and ∨ and flip every literal. */
  function Dual(f: Formula): (r: Formula)
    requires IsNNF(f)
    ensures IsNNF(r)
    ensures IsConjClause(f) ==> IsDisjClause(r)
    ensures IsDNF(f) ==> IsCNF(r)
  {
    match f
    case Conjunction(l, r) => Disjunction(Dual(l), Dual(r))
    case Disjunction(l, r) => Conjunction(Dual(l), Dual(r))
    case Negation(g) => g
    case Variable(_) => Negation(f)
  }

  lemma {:induction false} DualNegates(f: Formula, a: string -> bool)
    requires IsNNF(f)
    ensures Sem(Dual(f), a) == !Sem(f, a)
  {
    match f
    case Conjunction(l, r) => DualNegates(l, a); DualNegates(r, a);
    case Disjunction(l, r) => DualNegates(l, a); DualNegates(r, a);
    case Negation(g) =>
    case Variable(_) =>
  }

  /**
   * The corrected syntactic CNF: the corrected DNF of ¬f, dualised.  It
   * fails exactly on constants, and its result is in conjunctive normal
   * form.
   */
  function CorrectedCnf(f: Formula): (r: Result<Formula, NFError>)
    ensures r.Ok? <==> ConstantFree(f)
    ensures r.Ok? ==> IsCNF(r.value)
  {
    var d :- Dnf(RemoveImplications(Negation(f)), true);
    Ok(Dual(d))
  }

  /** The corrected CNF has the input's truth value under every assignment. */
  lemma CorrectedCnfSem(f: Formula, a: string -> bool)
    requires CorrectedCnf(f).Ok?
    ensures Sem(CorrectedCnf(f).value, a) == Sem(f, a)
  {
    var negated := RemoveImplications(Negation(f));
    DnfSem(negated, true, a);
    RemoveImplicationsSem(Negation(f), a);
    DualNegates(Dnf(negated, true).value, a);
  }

  // ---------------------------------------------------------------------
  // Syntactic NNF
  // ---------------------------------------------------------------------

  /**
   * `NNFConverterStrategies.syntactic`: a negation hands its operand to
   * `AfterNegation`; a conjunction or disjunction is rebuilt over its
   * operands as they are (`descend` false, as written) or over their
   * conversions (`descend` true, the corrected strategy).
   */
  function Nnf(f: Formula, descend: bool): (r: Result<Formula, NFError>)
    ensures r.Ok? && r.value.Negation? ==> r.value.formula.Variable?
    ensures descend ==> (r.Ok? <==> ImplicationFree(f) && ConstantFree(f))
    ensures descend && r.Ok? ==> IsNNF(r.value)
    decreases Size(f), 1
  {
    match f
    case Implication(_, _) => Err(ImplicationFound)
    case Conjunction(l, r) =>
      if descend then
        var a :- Nnf(l, descend);
        var b :- Nnf(r, descend);
        Ok(Conjunction(a, b))
      else Ok(Conjunction(l, r))
    case Disjunction(l, r) =>
      if descend then
        var a :- Nnf(l, descend);
        var b :- Nnf(r, descend);
        Ok(Disjunction(a, b))
      else Ok(Disjunction(l, r))
    case Negation(g) => AfterNegation(g, descend)
    case Variable(_) => Ok(f)
    case Truth => Err(TruthFound)
    case Falsity => Err(FalsityFound)
  }

  /** `AfterNegationVisitor`: the conversion of ¬g, by De Morgan and double negation. */
  function AfterNegation(g: Formula, descend: bool): (r: Result<Formula, NFError>)
    ensures r.Ok? && r.value.Negation? ==> r.value.formula.Variable?
    ensures descend ==> (r.Ok? <==> ImplicationFree(g) && ConstantFree(g))
    ensures descend && r.Ok? ==> IsNNF(r.value)
    decreases Size(g) + 1, 0
  {
    match g
    case Implication(_, _) => Err(ImplicationFound)
    case Conjunction(l, r) =>
      var a :- Nnf(Negation(l), descend);
      var b :- Nnf(Negation(r), descend);
      Ok(Disjunction(a, b))
    case Disjunction(l, r) =>
      var a :- Nnf(Negation(l), descend);
      var b :- Nnf(Negation(r), descend);
      Ok(Conjunction(a, b))
    case Negation(h) => Nnf(h, descend)
    case Variable(_) => Ok(Negation(g))
    case Truth => Err(TruthFound)
    case Falsity => Err(FalsityFound)
  }

  /** Both as written and corrected, a successful conversion keeps the truth value. */
  lemma {:induction false} NnfSem(f: Formula, descend: bool, a: string -> bool)
    requires Nnf(f, descend).Ok?
    ensures Sem(Nnf(f, descend).value, a) == Sem(f, a)
    decreases Size(f), 1
  {
    match f
    case Conjunction(l, r) =>
      if descend {
        NnfSem(l, descend, a);
        NnfSem(r, descend, a);
      }
    case Disjunction(l, r) =>
      if descend {
        NnfSem(l, descend, a);
        NnfSem(r, descend, a);
      }
    case Negation(g) => AfterNegationSem(g, descend, a);
    case Variable(_) =>
  }

  lemma {:induction false} AfterNegationSem(g: Formula, descend: bool, a: string -> bool)
    requires AfterNegation(g, descend).Ok?
    ensures Sem(AfterNegation(g, descend).value, a) == !Sem(g, a)
    decreases Size(g) + 1, 0
  {
    match g
    case Conjunction(l, r) =>
      NnfSem(Negation(l), descend, a);
      NnfSem(Negation(r), descend, a);
    case Disjunction(l, r) =>
      NnfSem(Negation(l), descend, a);
      NnfSem(Negation(r), descend, a);
    case Negation(h) => NnfSem(h, descend, a);
    case Variable(_) =>
  }

  /** A formula already in negation normal form comes back unchanged, as written and corrected. */
  lemma {:induction false} NnfKeepsNnf(f: Formula, descend: bool)
    requires IsNNF(f)
    ensures Nnf(f, descend) == Ok(f)
  {
    match f
    case Conjunction(l, r) =>
      NnfKeepsNnf(l, descend);
      NnfKeepsNnf(r, descend);
    case Disjunction(l, r) =>
      NnfKeepsNnf(l, descend);
      NnfKeepsNnf(r, descend);
    case Negation(g) =>
    case Variable(_) =>
  }

  /**
   * As written, the operands of a root conjunction are not visited: a
   * double negation below it stays, and a constant below it is not
   * reported; the corrected strategy removes the one and rejects the other.
   */
  lemma NnfLeavesOperands()
    ensures var f := Conjunction(Negation(Negation(Variable("A"))), Variable("B"));
      Nnf(f, false) == Ok(f) && !IsNNF(f) &&
      Nnf(f, true) == Ok(Conjunction(Variable("A"), Variable("B")))
    ensures Nnf(Disjunction(Variable("A"), Truth), false).Ok?
    ensures Nnf(Disjunction(Variable("A"), Truth), true) == Err(TruthFound)
  {
  }
}
