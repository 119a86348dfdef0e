/**
 * The proof search of `ProofTree.solve`, stated on values: the proof it
 * builds for a sequent, or the error it throws. A proof is a tree of
 * sequents; every inner node records the rule whose premises are its
 * children, and every leaf is an axiom `x ⇒ x`.
 */
module ProofSearch {
  import opened Wrappers
  import opened Formulas
  import opened TruthValues
  import opened Sequents
  import FormulaPrinter
  import opened SequentRules

  datatype Proof = Proof(sequent: Sequent, rule: Option<Rule>, premises: seq<Proof>)

  /** One node of a single-premise chain: its sequent and the rule used on it. */
  datatype Step = Step(sequent: Sequent, rule: Rule)

  /** The steps of a chain and the sequent it ends in. */
  datatype Moved = Moved(steps: seq<Step>, last: Sequent)

  /**
   * Why the search fails: a rule or helper threw, or a sequent of variables
   * shares no name between its cedents ("Can't find proof").
   */
  datatype SolveError = RuleFailed(error: RuleError) | NoProof(sequent: Sequent)

  /** The chain of nodes `steps` with `bottom` below its last node. */
  function Chain(steps: seq<Step>, bottom: Proof): Proof
    decreases |steps|
  {
    if |steps| == 0 then bottom
    else Proof(steps[0].sequent, Some(steps[0].rule), [Chain(steps[1..], bottom)])
  }

  /** Each step's rule gives exactly the next step's sequent (or `last`) as its one premise. */
  predicate Leads(s: Sequent, steps: seq<Step>, last: Sequent)
    decreases |steps|
  {
    if |steps| == 0 then last == s
    else
      steps[0].sequent == s
      && Premises(steps[0].rule, s) == Ok([Top(steps[1..], last)])
      && Leads(Top(steps[1..], last), steps[1..], last)
  }

  /** The sequent of the first of `steps`, or `last` when there is none. */
  function Top(steps: seq<Step>, last: Sequent): Sequent {
    if |steps| == 0 then last else steps[0].sequent
  }

  predicate Exchanges(steps: seq<Step>) {
    forall k :: 0 <= k < |steps| ==> steps[k].rule.LeftExchange? || steps[k].rule.RightExchange?
  }

  predicate Weakenings(steps: seq<Step>) {
    forall k :: 0 <= k < |steps| ==> steps[k].rule.LeftWeakening? || steps[k].rule.RightWeakening?
  }

  // ---------------------------------------------------------------------
  // moveFormula and deriveAxiom
  // ---------------------------------------------------------------------

  /** `moveFormulaOutside`: exchange the formula at `idx` with its left neighbour until it is at index 0. */
  function MoveOutside(s: Sequent, idx: nat, inAntecedent: bool): Moved
    requires idx < |Cedent(s, inAntecedent)|
    decreases idx
  {
    if idx == 0 then Moved([], s)
    else
      var next := MoveOutside(Exchanged(s, inAntecedent, idx - 1), idx - 1, inAntecedent);
      Moved([Step(s, ExchangeRule(inAntecedent, idx - 1))] + next.steps, next.last)
  }

  /** `moveFormulaInside`: exchange the formula at `idx` with its right neighbour until it is last. */
  function MoveInside(s: Sequent, idx: nat, inAntecedent: bool): Moved
    requires idx < |Cedent(s, inAntecedent)|
    decreases |Cedent(s, inAntecedent)| - idx
  {
    if idx + 1 >= |Cedent(s, inAntecedent)| then Moved([], s)
    else
      var next := MoveInside(Exchanged(s, inAntecedent, idx), idx + 1, inAntecedent);
      Moved([Step(s, ExchangeRule(inAntecedent, idx))] + next.steps, next.last)
  }

  /** The loops of `deriveAxiom`: weaken index 0 of the antecedent, then of the succedent, down to one formula each. */
  function Weaken(s: Sequent): Moved
    decreases |s.antecedent| + |s.succedent|
  {
    if |s.antecedent| > 1 then
      var next := Weaken(Sequent(s.antecedent[1..], s.succedent));
      Moved([Step(s, LeftWeakening)] + next.steps, next.last)
    else if |s.succedent| > 1 then
      var next := Weaken(Sequent(s.antecedent, s.succedent[1..]));
      Moved([Step(s, RightWeakening)] + next.steps, next.last)
    else Moved([], s)
  }

  /** `deriveAxiom`: the index-0 checks, then the weakening chain. */
  function DeriveAxiom(s: Sequent): Result<Moved, RuleError> {
    if |s.antecedent| > 0 && !s.antecedent[0].Variable? then Err(NotAVariable(true))
    else if |s.succedent| > 0 && !s.succedent[0].Variable? then Err(NotAVariable(false))
    else Ok(Weaken(s))
  }

  /** Moving outside takes `idx` exchanges, each giving the next node's sequent. */
  lemma {:induction false} MoveOutsideLeads(s: Sequent, idx: nat, inAntecedent: bool)
    requires idx < |Cedent(s, inAntecedent)|
    ensures var m := MoveOutside(s, idx, inAntecedent);
      |m.steps| == idx && Leads(s, m.steps, m.last) && Exchanges(m.steps)
    decreases idx
  {
    if idx > 0 {
      var t := Exchanged(s, inAntecedent, idx - 1);
      MoveOutsideLeads(t, idx - 1, inAntecedent);
      var m := MoveOutside(s, idx, inAntecedent);
      assert m.steps[1..] == MoveOutside(t, idx - 1, inAntecedent).steps;
    }
  }

  /** Step `k` of a chain moves from its sequent to the next step's sequent (or `last`). */
  lemma {:induction false} LeadsAt(s: Sequent, steps: seq<Step>, last: Sequent, k: nat)
    requires Leads(s, steps, last) && k < |steps|
    ensures Premises(steps[k].rule, steps[k].sequent) == Ok([Top(steps[k + 1..], last)])
    decreases k
  {
    if k > 0 {
      var rest := steps[1..];
      LeadsAt(Top(rest, last), rest, last, k - 1);
      assert rest[k - 1] == steps[k];
      assert rest[k..] == steps[k + 1..];
    }
  }

  /** Step `k` of moving outside exchanges positions `idx - 1 - k` and `idx - k`. */
  lemma {:induction false} MoveOutsideRule(s: Sequent, idx: nat, inAntecedent: bool, k: nat)
    requires idx < |Cedent(s, inAntecedent)| && k < idx
    ensures k < |MoveOutside(s, idx, inAntecedent).steps|
    ensures MoveOutside(s, idx, inAntecedent).steps[k].rule == ExchangeRule(inAntecedent, idx - 1 - k)
    decreases k
  {
    MoveOutsideLeads(s, idx, inAntecedent);
    var t := Exchanged(s, inAntecedent, idx - 1);
    if k > 0 {
      MoveOutsideRule(t, idx - 1, inAntecedent, k - 1);
      assert MoveOutside(s, idx, inAntecedent).steps[k] == MoveOutside(t, idx - 1, inAntecedent).steps[k - 1];
    }
  }

  /** Moving outside leaves the formula at index 0, the ones before it shifted up by one, and the other cedent alone. */
  lemma {:induction false} MoveOutsideCedents(s: Sequent, idx: nat, inAntecedent: bool)
    requires idx < |Cedent(s, inAntecedent)|
    ensures var m := MoveOutside(s, idx, inAntecedent);
      var c := Cedent(s, inAntecedent);
      Cedent(m.last, inAntecedent) == [c[idx]] + c[..idx] + c[idx + 1..]
      && Cedent(m.last, !inAntecedent) == Cedent(s, !inAntecedent)
    decreases idx
  {
    if idx > 0 {
      var c := Cedent(s, inAntecedent);
      var t := Exchanged(s, inAntecedent, idx - 1);
      MoveOutsideCedents(t, idx - 1, inAntecedent);
      var d := Cedent(t, inAntecedent);
      RotateLeft(c, d, idx);
    }
  }

  lemma RotateLeft(c: seq<Formula>, d: seq<Formula>, idx: nat)
    requires 0 < idx < |c| && d == Swap(c, idx - 1)
    ensures [d[idx - 1]] + d[..idx - 1] + d[idx..] == [c[idx]] + c[..idx] + c[idx + 1..]
  {
    assert d[idx - 1] == c[idx];
    assert d[..idx - 1] == c[..idx - 1];
    assert d[idx..] == [c[idx - 1]] + c[idx + 1..];
    assert c[..idx] == c[..idx - 1] + [c[idx - 1]];
  }

  /** Moving inside takes one exchange per formula after `idx`, each giving the next node's sequent. */
  lemma {:induction false} MoveInsideLeads(s: Sequent, idx: nat, inAntecedent: bool)
    requires idx < |Cedent(s, inAntecedent)|
    ensures var m := MoveInside(s, idx, inAntecedent);
      |m.steps| == |Cedent(s, inAntecedent)| - 1 - idx && Leads(s, m.steps, m.last) && Exchanges(m.steps)
    decreases |Cedent(s, inAntecedent)| - idx
  {
    if idx + 1 < |Cedent(s, inAntecedent)| {
      var t := Exchanged(s, inAntecedent, idx);
      MoveInsideLeads(t, idx + 1, inAntecedent);
      var m := MoveInside(s, idx, inAntecedent);
      assert m.steps[1..] == MoveInside(t, idx + 1, inAntecedent).steps;
    }
  }

  /** Step `k` of moving inside exchanges positions `idx + k` and `idx + k + 1`. */
  lemma {:induction false} MoveInsideRule(s: Sequent, idx: nat, inAntecedent: bool, k: nat)
    requires idx + k + 1 < |Cedent(s, inAntecedent)|
    ensures k < |MoveInside(s, idx, inAntecedent).steps|
    ensures MoveInside(s, idx, inAntecedent).steps[k].rule == ExchangeRule(inAntecedent, idx + k)
    decreases k
  {
    MoveInsideLeads(s, idx, inAntecedent);
    var t := Exchanged(s, inAntecedent, idx);
    if k > 0 {
      MoveInsideRule(t, idx + 1, inAntecedent, k - 1);
      assert MoveInside(s, idx, inAntecedent).steps[k] == MoveInside(t, idx + 1, inAntecedent).steps[k - 1];
    }
  }

  /** Moving inside leaves the formula last, the ones after it shifted down by one, and the other cedent alone. */
  lemma {:induction false} MoveInsideCedents(s: Sequent, idx: nat, inAntecedent: bool)
    requires idx < |Cedent(s, inAntecedent)|
    ensures var m := MoveInside(s, idx, inAntecedent);
      var c := Cedent(s, inAntecedent);
      Cedent(m.last, inAntecedent) == c[..idx] + c[idx + 1..] + [c[idx]]
      && Cedent(m.last, !inAntecedent) == Cedent(s, !inAntecedent)
    decreases |Cedent(s, inAntecedent)| - idx
  {
    var c := Cedent(s, inAntecedent);
    if idx + 1 >= |c| {
      assert c == c[..idx] + c[idx + 1..] + [c[idx]];
    } else {
      var t := Exchanged(s, inAntecedent, idx);
      MoveInsideCedents(t, idx + 1, inAntecedent);
      RotateRight(c, Cedent(t, inAntecedent), idx);
    }
  }

  lemma RotateRight(c: seq<Formula>, d: seq<Formula>, idx: nat)
    requires idx + 1 < |c| && d == Swap(c, idx)
    ensures d[..idx + 1] + d[idx + 2..] + [d[idx + 1]] == c[..idx] + c[idx + 1..] + [c[idx]]
  {
    assert d[idx + 1] == c[idx];
    assert d[..idx + 1] == c[..idx] + [c[idx + 1]];
    assert d[idx + 2..] == c[idx + 2..];
    assert c[idx + 1..] == [c[idx + 1]] + c[idx + 2..];
  }

  function LastOne(c: seq<Formula>): seq<Formula> {
    if |c| == 0 then [] else [c[|c| - 1]]
  }

  /** The weakening chain is a chain of weakenings leading from `s` to its end. */
  lemma {:induction false} WeakenLeads(s: Sequent)
    ensures var m := Weaken(s);
      Leads(s, m.steps, m.last) && Weakenings(m.steps)
    decreases |s.antecedent| + |s.succedent|
  {
    var m := Weaken(s);
    if |s.antecedent| > 1 || |s.succedent| > 1 {
      var t := if |s.antecedent| > 1 then Sequent(s.antecedent[1..], s.succedent)
               else Sequent(s.antecedent, s.succedent[1..]);
      var n := Weaken(t);
      WeakenLeads(t);
      LeadsTop(t, n.steps, n.last);
      assert m.steps[1..] == n.steps;
      assert Top(m.steps[1..], m.last) == t;
    }
  }

  /** The weakening chain ends with only the last formula of each cedent left. */
  lemma {:induction false} WeakenLast(s: Sequent)
    ensures Weaken(s).last == Sequent(LastOne(s.antecedent), LastOne(s.succedent))
    decreases |s.antecedent| + |s.succedent|
  {
    if |s.antecedent| > 1 {
      var t := Sequent(s.antecedent[1..], s.succedent);
      WeakenLast(t);
      assert LastOne(t.antecedent) == LastOne(s.antecedent);
    } else if |s.succedent| > 1 {
      var t := Sequent(s.antecedent, s.succedent[1..]);
      WeakenLast(t);
      assert LastOne(t.succedent) == LastOne(s.succedent);
    }
  }

  lemma WeakenSpec(s: Sequent)
    ensures var m := Weaken(s);
      Leads(s, m.steps, m.last) && Weakenings(m.steps)
      && m.last == Sequent(LastOne(s.antecedent), LastOne(s.succedent))
  {
    WeakenLeads(s);
    WeakenLast(s);
  }

  /** A chain starts at the sequent it leads from. */
  lemma LeadsTop(s: Sequent, steps: seq<Step>, last: Sequent)
    requires Leads(s, steps, last)
    ensures Top(steps, last) == s
  {
  }

  lemma {:induction false} LeadsAppend(s: Sequent, xs: seq<Step>, mid: Sequent, ys: seq<Step>, last: Sequent)
    requires Leads(s, xs, mid) && Leads(mid, ys, last)
    ensures Leads(s, xs + ys, last)
    decreases |xs|
  {
    var zs := xs + ys;
    if |xs| > 0 {
      var t := Top(xs[1..], mid);
      LeadsAppend(t, xs[1..], mid, ys, last);
      assert zs[0] == xs[0];
      assert zs[1..] == xs[1..] + ys;
      assert Top(zs[1..], last) == t;
    } else {
      assert zs == ys;
    }
  }

  /** A chain of exchanges keeps the truth, the connectives and the constants of the sequent. */
  lemma {:induction false} ExchangesKeep(s: Sequent, steps: seq<Step>, last: Sequent)
    requires Leads(s, steps, last) && Exchanges(steps)
    ensures SequentConnectives(last) == SequentConnectives(s)
    ensures SequentConstantFree(last) <==> SequentConstantFree(s)
    ensures forall a: string -> bool :: Holds(last, a) <==> Holds(s, a)
    decreases |steps|
  {
    if |steps| > 0 {
      var p := Premises(steps[0].rule, s).value[0];
      StructuralRule(steps[0].rule, s);
      assert [p][0] == p;
      ExchangesKeep(p, steps[1..], last);
    }
  }

  // ---------------------------------------------------------------------
  // solve
  // ---------------------------------------------------------------------

  /** The "no" case of `solve`: find the shared variable, move both copies inside, weaken the rest away. */
  function AxiomProof(s: Sequent): Result<Proof, SolveError> {
    match FindAxiomOf(s)
    case Err(e) => Err(RuleFailed(e))
    case Ok(None) => Err(NoProof(s))
    case Ok(Some(pair)) =>
      PairInRange(s);
      var moved := AxiomMoves(s, pair.0, pair.1);
      match DeriveAxiom(moved.last)
      case Err(e) => Err(RuleFailed(e))
      case Ok(weakened) => Ok(Chain(moved.steps + weakened.steps, Proof(weakened.last, None, [])))
  }

  /** Move the antecedent's copy of the variable inside, then the succedent's. */
  function AxiomMoves(s: Sequent, i: nat, j: nat): Moved
    requires i < |s.antecedent| && j < |s.succedent|
  {
    var inAntecedent := MoveInside(s, i, true);
    MoveInsideCedents(s, i, true);
    var inSuccedent := MoveInside(inAntecedent.last, j, false);
    Moved(inAntecedent.steps + inSuccedent.steps, inSuccedent.last)
  }

  /** Both moves are exchanges that leave the two copies of the variable last in their cedents. */
  lemma AxiomMovesSpec(s: Sequent, i: nat, j: nat)
    requires i < |s.antecedent| && j < |s.succedent|
    ensures var m := AxiomMoves(s, i, j);
      Leads(s, m.steps, m.last) && Exchanges(m.steps)
      && m.last.antecedent == s.antecedent[..i] + s.antecedent[i + 1..] + [s.antecedent[i]]
      && m.last.succedent == s.succedent[..j] + s.succedent[j + 1..] + [s.succedent[j]]
  {
    var m1 := MoveInside(s, i, true);
    MoveInsideCedents(s, i, true);
    MoveInsideLeads(s, i, true);
    var m2 := MoveInside(m1.last, j, false);
    MoveInsideCedents(m1.last, j, false);
    MoveInsideLeads(m1.last, j, false);
    LeadsAppend(s, m1.steps, m1.last, m2.steps, m2.last);
  }

  /**
   * For a sequent of variables with the same variable at `i` and `j`, the
   * moves leave a sequent that `deriveAxiom` accepts, and the weakening
   * chain ends in an axiom.
   */
  lemma AxiomLast(s: Sequent, i: nat, j: nat)
    requires AllVariables(s.antecedent) && AllVariables(s.succedent)
    requires i < |s.antecedent| && j < |s.succedent| && s.antecedent[i] == s.succedent[j]
    ensures var m := AxiomMoves(s, i, j);
      DeriveAxiom(m.last) == Ok(Weaken(m.last)) && IsAxiom(Weaken(m.last).last)
  {
    var m := AxiomMoves(s, i, j);
    AxiomMovesSpec(s, i, j);
    var u := m.last;
    assert u.antecedent[|u.antecedent| - 1] == s.antecedent[i];
    assert u.succedent[|u.succedent| - 1] == s.succedent[j];
    assert u.antecedent[0] in s.antecedent;
    assert u.succedent[0] in s.succedent;
    WeakenSpec(u);
  }

  /** Exchanges followed by weakenings make a chain with no propositional step. */
  lemma StructuralChain(s: Sequent, xs: seq<Step>, mid: Sequent, ys: seq<Step>, last: Sequent)
    requires Leads(s, xs, mid) && Exchanges(xs) && Leads(mid, ys, last) && Weakenings(ys)
    ensures Leads(s, xs + ys, last)
    ensures forall k :: 0 <= k < |xs + ys| ==> !IsPropositional((xs + ys)[k].rule)
  {
    LeadsAppend(s, xs, mid, ys, last);
    var all := xs + ys;
    forall k | 0 <= k < |all|
      ensures !IsPropositional(all[k].rule)
    {
      if k < |xs| {
        assert all[k] == xs[k];
      } else {
        assert all[k] == ys[k - |xs|];
      }
    }
  }

  lemma PairInRange(s: Sequent)
    requires FindAxiomOf(s).Ok? && FindAxiomOf(s).value.Some?
    ensures FindAxiomOf(s).value.value.0 < |s.antecedent|
    ensures FindAxiomOf(s).value.value.1 < |s.succedent|
  {
    PairBelowSpec(Names(s.antecedent), Names(s.succedent), |s.antecedent|);
  }

  /**
   * `solve`: decompose the first compound formula of the antecedent, else of
   * the succedent; with none left, close the branch with an axiom.
   */
  function Solve(s: Sequent): Result<Proof, SolveError>
    decreases SequentConnectives(s), 2
  {
    HasConnectiveSpec(s);
    match HasConnectiveFormula(s)
    case Err(e) => Err(RuleFailed(e))
    case Ok(NoConnective) => AxiomProof(s)
    case Ok(InAntecedent(i)) => Decompose(s, i, true)
    case Ok(InSuccedent(j)) => Decompose(s, j, false)
  }

  /**
   * The "antecedent" and "succedent" cases of `solve`: move the formula to
   * index 0, apply its rule, and solve the first premise, then the second.
   */
  function Decompose(s: Sequent, idx: nat, inAntecedent: bool): Result<Proof, SolveError>
    requires idx < |Cedent(s, inAntecedent)| && IsCompound(Cedent(s, inAntecedent)[idx])
    decreases SequentConnectives(s), 1
  {
    var moved := MoveOutside(s, idx, inAntecedent);
    MoveOutsideLeads(s, idx, inAntecedent);
    MoveOutsideCedents(s, idx, inAntecedent);
    ExchangesKeep(s, moved.steps, moved.last);
    var rule := OutsideRule(moved.last, inAntecedent).value;
    PropositionalRule(moved.last, inAntecedent);
    var ps := Premises(rule, moved.last).value;
    var node :- Apply(moved.last, rule, ps);
    Ok(Chain(moved.steps, node))
  }

  /** `decompose` hands back what the end of the search gives for the moved sequent, under the exchange steps. */
  lemma DecomposeApply(s: Sequent, idx: nat, inAntecedent: bool, moved: Moved, rule: Rule, ps: seq<Sequent>)
    requires idx < |Cedent(s, inAntecedent)| && IsCompound(Cedent(s, inAntecedent)[idx])
    requires moved == MoveOutside(s, idx, inAntecedent)
    requires OutsideRule(moved.last, inAntecedent) == Ok(rule) && Premises(rule, moved.last) == Ok(ps)
    requires 1 <= |ps| <= 2 && AllSmaller(ps, SequentConnectives(moved.last))
    ensures var a := Apply(moved.last, rule, ps); var d := Decompose(s, idx, inAntecedent);
      (d.Ok? <==> a.Ok?) && (d.Ok? ==> d.value == Chain(moved.steps, a.value)) && (d.Err? ==> d.error == a.error)
  {
  }

  /** The end of `solve`: the rule's node over the proofs of its premises, the first premise solved first. */
  function Apply(s: Sequent, rule: Rule, ps: seq<Sequent>): Result<Proof, SolveError>
    requires 1 <= |ps| <= 2 && AllSmaller(ps, SequentConnectives(s))
    decreases SequentConnectives(s), 0
  {
    var first :- Solve(ps[0]);
    if |ps| == 2 then
      var second :- Solve(ps[1]);
      Ok(Proof(s, Some(rule), [first, second]))
    else
      Ok(Proof(s, Some(rule), [first]))
  }

  /**
   * The end of the search succeeds exactly when every premise's search
   * does, the first failure deciding the error; its proof is the rule's
   * node over the premises' proofs.
   */
  lemma ApplyResult(s: Sequent, rule: Rule, ps: seq<Sequent>)
    requires 1 <= |ps| <= 2 && AllSmaller(ps, SequentConnectives(s))
    ensures var r := Apply(s, rule, ps);
      (r.Ok? <==> Solve(ps[0]).Ok? && (|ps| == 2 ==> Solve(ps[1]).Ok?))
      && (r.Ok? ==> r.value == Proof(s, Some(rule),
            [Solve(ps[0]).value] + (if |ps| == 2 then [Solve(ps[1]).value] else [])))
      && (r.Err? ==> r.error == if Solve(ps[0]).Err? then Solve(ps[0]).error else Solve(ps[1]).error)
  {
  }

  // ---------------------------------------------------------------------
  // What a proof is
  // ---------------------------------------------------------------------

  function Conclusions(ps: seq<Proof>): (ss: seq<Sequent>)
    ensures |ss| == |ps|
  {
    seq(|ps|, k requires 0 <= k < |ps| => ps[k].sequent)
  }

  /** An initial axiom: one variable on each side, the same one. */
  predicate IsAxiom(s: Sequent) {
    |s.antecedent| == 1 && |s.succedent| == 1 && s.antecedent[0].Variable? && s.antecedent[0] == s.succedent[0]
  }

  /**
   * Every inner node's rule applied to its sequent gives exactly its
   * children's sequents, and every leaf is an axiom with no rule.
   */
  predicate WellFormed(p: Proof)
    decreases p
  {
    (if |p.premises| == 0 then p.rule.None? && IsAxiom(p.sequent)
     else p.rule.Some? && Premises(p.rule.value, p.sequent) == Ok(Conclusions(p.premises)))
    && forall k :: 0 <= k < |p.premises| ==> WellFormed(p.premises[k])
  }

  /** Every node using a Right propositional rule has only variables in its antecedent. */
  predicate LeftFirst(p: Proof)
    decreases p
  {
    (p.rule.Some? && IsPropositional(p.rule.value) && !OnTheLeft(p.rule.value) ==> AllVariables(p.sequent.antecedent))
    && forall k :: 0 <= k < |p.premises| ==> LeftFirst(p.premises[k])
  }

  lemma {:induction false} ChainWellFormed(s: Sequent, steps: seq<Step>, bottom: Proof)
    requires Leads(s, steps, bottom.sequent) && WellFormed(bottom)
    ensures WellFormed(Chain(steps, bottom)) && Chain(steps, bottom).sequent == s
    decreases |steps|
  {
    if |steps| > 0 {
      var p := Premises(steps[0].rule, s).value[0];
      ChainWellFormed(p, steps[1..], bottom);
      assert Conclusions([Chain(steps[1..], bottom)]) == [p];
    }
  }

  lemma {:induction false} ChainLeftFirst(steps: seq<Step>, bottom: Proof)
    requires forall k :: 0 <= k < |steps| ==> !IsPropositional(steps[k].rule)
    requires LeftFirst(bottom)
    ensures LeftFirst(Chain(steps, bottom))
    decreases |steps|
  {
    if |steps| > 0 {
      ChainLeftFirst(steps[1..], bottom);
    }
  }

  /** An axiom holds under every assignment. */
  lemma AxiomValid(s: Sequent)
    requires IsAxiom(s)
    ensures Valid(s)
  {
    forall a: string -> bool
      ensures Holds(s, a)
    {
      if Sem(s.antecedent[0], a) {
        assert Sem(s.succedent[0], a);
      } else {
        assert !Sem(s.antecedent[0], a);
      }
    }
  }

  /** Soundness of the calculus: a well-formed proof proves a valid sequent. */
  lemma {:induction false} WellFormedSound(p: Proof)
    requires WellFormed(p)
    ensures Valid(p.sequent)
    decreases p
  {
    if |p.premises| == 0 {
      AxiomValid(p.sequent);
    } else {
      var ps := Conclusions(p.premises);
      forall k | 0 <= k < |p.premises|
        ensures Valid(ps[k])
      {
        WellFormedSound(p.premises[k]);
      }
      RuleSound(p.rule.value, p.sequent);
      forall a: string -> bool
        ensures Holds(p.sequent, a)
      {
        assert AllHold(ps, a);
      }
    }
  }

  // ---------------------------------------------------------------------
  // What solve finds
  // ---------------------------------------------------------------------

  /** The names of the variables of a cedent. */
  function NameSet(fs: seq<Formula>): set<string> {
    set i | 0 <= i < |fs| && fs[i].Variable? :: fs[i].name
  }

  /** Some variable is in both cedents. */
  predicate SharesVariable(s: Sequent) {
    exists i, j :: 0 <= i < |s.antecedent| && 0 <= j < |s.succedent|
      && s.antecedent[i].Variable? && s.antecedent[i] == s.succedent[j]
  }

  /**
   * A sequent of variables is valid exactly when some variable is in both
   * cedents; otherwise making exactly the antecedent's variables true
   * falsifies it.
   */
  lemma VariablesValid(s: Sequent)
    requires AllVariables(s.antecedent) && AllVariables(s.succedent)
    ensures Valid(s) <==> SharesVariable(s)
    ensures !SharesVariable(s) ==> !Holds(s, x => x in NameSet(s.antecedent))
  {
    if SharesVariable(s) {
      var i, j :| 0 <= i < |s.antecedent| && 0 <= j < |s.succedent|
        && s.antecedent[i].Variable? && s.antecedent[i] == s.succedent[j];
      forall a: string -> bool
        ensures Holds(s, a)
      {
        if Sem(s.antecedent[i], a) {
          assert Sem(s.succedent[j], a);
        } else {
          assert !Sem(s.antecedent[i], a);
        }
      }
    } else {
      var a: string -> bool := x => x in NameSet(s.antecedent);
      forall i | 0 <= i < |s.antecedent|
        ensures Sem(s.antecedent[i], a)
      {
        assert s.antecedent[i].name in NameSet(s.antecedent);
      }
      forall j | 0 <= j < |s.succedent|
        ensures !Sem(s.succedent[j], a)
      {
        assert s.succedent[j].Variable?;
      }
      assert !Holds(s, a);
    }
  }

  lemma VariablesConstantFree(fs: seq<Formula>)
    requires AllVariables(fs)
    ensures CedentConstantFree(fs)
  {
  }

  /**
   * On a sequent of variables the "no" case succeeds exactly when some
   * variable is in both cedents, and its proof is a well-formed chain of
   * exchanges and weakenings ending in an axiom.
   */
  lemma AxiomProofSpec(s: Sequent)
    requires AllVariables(s.antecedent) && AllVariables(s.succedent)
    ensures AxiomProof(s).Ok? <==> SharesVariable(s)
    ensures AxiomProof(s).Err? ==> AxiomProof(s) == Err(NoProof(s))
    ensures AxiomProof(s).Ok? ==>
      WellFormed(AxiomProof(s).value) && AxiomProof(s).value.sequent == s && LeftFirst(AxiomProof(s).value)
  {
    var an, sn := Names(s.antecedent), Names(s.succedent);
    PairBelowSpec(an, sn, |s.antecedent|);
    assert FindAxiomOf(s).Ok?;
    if SharesVariable(s) {
      var i, j :| 0 <= i < |s.antecedent| && 0 <= j < |s.succedent|
        && s.antecedent[i].Variable? && s.antecedent[i] == s.succedent[j];
      assert an[i] == sn[j];
    } else {
      forall m, n | 0 <= m < |s.antecedent| && 0 <= n < |s.succedent|
        ensures an[m] != sn[n]
      {
        assert an[m] == Name(s.antecedent[m]);
      }
    }
    if FindAxiomOf(s).value.Some? {
      var (i, j) := FindAxiomOf(s).value.value;
      assert s.antecedent[i] == s.succedent[j];
      var m := AxiomMoves(s, i, j);
      AxiomLast(s, i, j);
      AxiomMovesSpec(s, i, j);
      var w := Weaken(m.last);
      WeakenLeads(m.last);
      StructuralChain(s, m.steps, m.last, w.steps, w.last);
      var leaf := Proof(w.last, None, []);
      ChainWellFormed(s, m.steps + w.steps, leaf);
      ChainLeftFirst(m.steps + w.steps, leaf);
    }
  }

  /**
   * Moving the formula outside is a chain of exchanges that keeps the
   * sequent's truth, connectives and constants, and the rule found for it
   * works on the same side, reduces the sequent and keeps its truth.
   */
  lemma DecomposeStep(s: Sequent, idx: nat, inAntecedent: bool)
    requires idx < |Cedent(s, inAntecedent)| && IsCompound(Cedent(s, inAntecedent)[idx])
    ensures var moved := MoveOutside(s, idx, inAntecedent);
      OutsideRule(moved.last, inAntecedent).Ok?
      && var rule := OutsideRule(moved.last, inAntecedent).value;
      Premises(rule, moved.last).Ok?
      && var ps := Premises(rule, moved.last).value;
      Reduces(moved.last, ps) && SameTruth(moved.last, ps)
      && Leads(s, moved.steps, moved.last) && Exchanges(moved.steps)
      && SequentConnectives(moved.last) == SequentConnectives(s)
      && (SequentConstantFree(moved.last) <==> SequentConstantFree(s))
      && (forall a: string -> bool :: Holds(moved.last, a) <==> Holds(s, a))
      && OnTheLeft(rule) == inAntecedent && IsPropositional(rule)
      && Cedent(moved.last, !inAntecedent) == Cedent(s, !inAntecedent)
  {
    var moved := MoveOutside(s, idx, inAntecedent);
    MoveOutsideLeads(s, idx, inAntecedent);
    MoveOutsideCedents(s, idx, inAntecedent);
    ExchangesKeep(s, moved.steps, moved.last);
    PropositionalRule(moved.last, inAntecedent);
  }

  /** The premises of the decomposition step, solved in order. */
  function Solved(ps: seq<Sequent>): seq<Proof>
    requires forall k :: 0 <= k < |ps| ==> Solve(ps[k]).Ok?
  {
    seq(|ps|, k requires 0 <= k < |ps| => Solve(ps[k]).value)
  }

  /**
   * The decomposition step succeeds exactly when every premise's search
   * does; its proof is the exchange chain above the rule's node, and its
   * error is that of a premise.
   */
  lemma DecomposeResult(s: Sequent, idx: nat, inAntecedent: bool, moved: Moved, rule: Rule, ps: seq<Sequent>)
    requires idx < |Cedent(s, inAntecedent)| && IsCompound(Cedent(s, inAntecedent)[idx])
    requires moved == MoveOutside(s, idx, inAntecedent)
    requires OutsideRule(moved.last, inAntecedent) == Ok(rule)
    requires Premises(rule, moved.last) == Ok(ps) && 1 <= |ps| <= 2
    ensures var r := Decompose(s, idx, inAntecedent);
      (r.Ok? <==> forall k :: 0 <= k < |ps| ==> Solve(ps[k]).Ok?)
      && (r.Ok? ==> r.value == Chain(moved.steps, Proof(moved.last, Some(rule), Solved(ps))))
      && (r.Err? ==> exists k :: 0 <= k < |ps| && Solve(ps[k]).Err? && r.error == Solve(ps[k]).error)
  {
    if |ps| == 2 {
      if Solve(ps[0]).Ok? && Solve(ps[1]).Ok? {
        var subs := Solved(ps);
        assert subs[0] == Solve(ps[0]).value && subs[1] == Solve(ps[1]).value;
        assert subs == [Solve(ps[0]).value, Solve(ps[1]).value];
      }
    } else {
      if Solve(ps[0]).Ok? {
        var subs := Solved(ps);
        assert subs[0] == Solve(ps[0]).value;
        assert subs == [Solve(ps[0]).value];
      }
    }
  }

  /**
   * Soundness and completeness of `solve`, with the shape of what it
   * returns: it succeeds exactly on the valid sequents without Truth or
   * Falsity. Its proof is well formed, proves the sequent it was given, and
   * decomposes antecedent formulas before any succedent formula. When it
   * fails with "no proof" the sequent is not valid; when a rule fails, the
   * sequent holds a constant.
   */
  lemma {:induction false} SolveSpec(s: Sequent)
    ensures Solve(s).Ok? <==> SequentConstantFree(s) && Valid(s)
    ensures Solve(s).Ok? ==> WellFormed(Solve(s).value) && Solve(s).value.sequent == s && LeftFirst(Solve(s).value)
    ensures Solve(s).Err? && Solve(s).error.NoProof? ==> !Valid(s)
    ensures Solve(s).Err? && Solve(s).error.RuleFailed? ==>
      !SequentConstantFree(s) && Solve(s).error.error in {TruthInSequent, FalsityInSequent}
    decreases SequentConnectives(s), 1
  {
    HasConnectiveSpec(s);
    match HasConnectiveFormula(s)
    case Err(e) =>
    case Ok(NoConnective) =>
      VariablesValid(s);
      VariablesConstantFree(s.antecedent);
      VariablesConstantFree(s.succedent);
      AxiomProofSpec(s);
    case Ok(InAntecedent(i)) => DecomposeSpec(s, i, true);
    case Ok(InSuccedent(j)) => DecomposeSpec(s, j, false);
  }

  lemma {:induction false} DecomposeSpec(s: Sequent, idx: nat, inAntecedent: bool)
    requires idx < |Cedent(s, inAntecedent)| && IsCompound(Cedent(s, inAntecedent)[idx])
    requires !inAntecedent ==> AllVariables(s.antecedent)
    ensures var r := Decompose(s, idx, inAntecedent);
      (r.Ok? <==> SequentConstantFree(s) && Valid(s))
      && (r.Ok? ==> WellFormed(r.value) && r.value.sequent == s && LeftFirst(r.value))
      && (r.Err? && r.error.NoProof? ==> !Valid(s))
      && (r.Err? && r.error.RuleFailed? ==>
            !SequentConstantFree(s) && r.error.error in {TruthInSequent, FalsityInSequent})
    decreases SequentConnectives(s), 0
  {
    DecomposeStep(s, idx, inAntecedent);
    var moved := MoveOutside(s, idx, inAntecedent);
    var rule := OutsideRule(moved.last, inAntecedent).value;
    var ps := Premises(rule, moved.last).value;
    DecomposeResult(s, idx, inAntecedent, moved, rule, ps);
    forall k | 0 <= k < |ps| {
      SolveSpec(ps[k]);
    }
    PremisesValid(moved.last, ps);
    assert Valid(moved.last) <==> Valid(s);
    if forall k :: 0 <= k < |ps| ==> Solve(ps[k]).Ok? {
      DecomposeShape(s, inAntecedent, moved, rule, ps);
    }
  }

  /** The chain `decompose` builds from solved premises is a well-formed proof of `s`. */
  lemma DecomposeShape(s: Sequent, inAntecedent: bool, moved: Moved, rule: Rule, ps: seq<Sequent>)
    requires Leads(s, moved.steps, moved.last) && Exchanges(moved.steps)
    requires Premises(rule, moved.last) == Ok(ps)
    requires OnTheLeft(rule) == inAntecedent && IsPropositional(rule)
    requires !inAntecedent ==> AllVariables(moved.last.antecedent)
    requires forall k :: 0 <= k < |ps| ==> Solve(ps[k]).Ok?
    requires forall k :: 0 <= k < |ps| ==>
      WellFormed(Solve(ps[k]).value) && Solve(ps[k]).value.sequent == ps[k] && LeftFirst(Solve(ps[k]).value)
    ensures var r := Chain(moved.steps, Proof(moved.last, Some(rule), Solved(ps)));
      WellFormed(r) && r.sequent == s && LeftFirst(r)
  {
    var subs := Solved(ps);
    var node := Proof(moved.last, Some(rule), subs);
    assert Conclusions(subs) == ps;
    assert WellFormed(node);
    ChainWellFormed(s, moved.steps, node);
    assert LeftFirst(node);
    ChainLeftFirst(moved.steps, node);
  }

  /** A sequent whose truth matches all its premises' is valid exactly when they all are. */
  lemma PremisesValid(s: Sequent, ps: seq<Sequent>)
    requires SameTruth(s, ps)
    ensures Valid(s) <==> forall k :: 0 <= k < |ps| ==> Valid(ps[k])
  {
    if Valid(s) {
      forall k | 0 <= k < |ps|
        ensures Valid(ps[k])
      {
        forall a: string -> bool
          ensures Holds(ps[k], a)
        {
          assert AllHold(ps, a);
        }
      }
    }
  }

  /** A sequent holding Truth or Falsity has no proof from the search, whatever else it holds. */
  lemma ConstantsRefused(s: Sequent)
    requires !SequentConstantFree(s)
    ensures Solve(s).Err?
  {
    SolveSpec(s);
  }

  // ---------------------------------------------------------------------
  // Height, description and levels
  // ---------------------------------------------------------------------

  /** `height`: 1 for a leaf, otherwise 1 more than the highest premise. */
  function Height(p: Proof): (h: nat)
    decreases p
  {
    1 + MaxHeight(p.premises)
  }

  function MaxHeight(ps: seq<Proof>): (h: nat)
    decreases ps
  {
    if |ps| == 0 then 0
    else
      var last := Height(ps[|ps| - 1]);
      var rest := MaxHeight(ps[..|ps| - 1]);
      if last > rest then last else rest
  }

  /** The highest tree of a list gives the list's height, and every tree is at most that high. */
  lemma {:induction false} MaxHeightSpec(ps: seq<Proof>)
    ensures forall k :: 0 <= k < |ps| ==> Height(ps[k]) <= MaxHeight(ps)
    ensures |ps| > 0 ==> exists k :: 0 <= k < |ps| && Height(ps[k]) == MaxHeight(ps)
    ensures |ps| == 0 ==> MaxHeight(ps) == 0
    decreases |ps|
  {
    if |ps| > 0 {
      MaxHeightSpec(ps[..|ps| - 1]);
      assert forall k :: 0 <= k < |ps| - 1 ==> ps[..|ps| - 1][k] == ps[k];
    }
  }

  /** A leaf has height 1; otherwise the height is one more than the highest premise. */
  lemma HeightSpec(p: Proof)
    ensures Height(p) >= 1
    ensures |p.premises| == 0 ==> Height(p) == 1
    ensures forall k :: 0 <= k < |p.premises| ==> Height(p.premises[k]) < Height(p)
    ensures |p.premises| > 0 ==> exists k :: 0 <= k < |p.premises| && Height(p) == Height(p.premises[k]) + 1
  {
    MaxHeightSpec(p.premises);
  }

  /** Number of nodes. */
  function Size(p: Proof): nat
    decreases p
  {
    1 + ForestSize(p.premises)
  }

  function ForestSize(ps: seq<Proof>): nat
    decreases ps
  {
    if |ps| == 0 then 0 else ForestSize(ps[..|ps| - 1]) + Size(ps[|ps| - 1])
  }

  /** One line of the description: a conclusion, one of its premises and the rule. */
  function EdgeLine(from: Sequent, to: Sequent, rule: Option<Rule>): string {
    "From " + Text(from) + " to " + Text(to) + " using " + (if rule.Some? then RuleName(rule.value) else "undefined") + "\n"
  }

  /**
   * `toString`: a line for the first premise followed by the first
   * premise's description, then the same for the second.
   */
  function Describe(p: Proof): string
    decreases p
  {
    DescribeFrom(p, 0)
  }

  function DescribeFrom(p: Proof, k: nat): string
    requires k <= |p.premises|
    decreases p, |p.premises| - k
  {
    if k == |p.premises| then ""
    else EdgeLine(p.sequent, p.premises[k].sequent, p.rule) + Describe(p.premises[k]) + DescribeFrom(p, k + 1)
  }

  /** An edge of a proof: a conclusion, one of its premises and the rule that links them. */
  datatype Edge = Edge(from: Sequent, to: Sequent, rule: Option<Rule>)

  /** The edges of a proof in the order `toString` describes them: depth first, first premise first. */
  function Edges(p: Proof): seq<Edge>
    decreases p
  {
    EdgesFrom(p, 0)
  }

  function EdgesFrom(p: Proof, k: nat): seq<Edge>
    requires k <= |p.premises|
    decreases p, |p.premises| - k
  {
    if k == |p.premises| then []
    else [Edge(p.sequent, p.premises[k].sequent, p.rule)] + Edges(p.premises[k]) + EdgesFrom(p, k + 1)
  }

  function Lines(edges: seq<Edge>): string
    decreases |edges|
  {
    if |edges| == 0 then "" else EdgeLine(edges[0].from, edges[0].to, edges[0].rule) + Lines(edges[1..])
  }

  function ForestSizeFrom(ps: seq<Proof>, k: nat): nat
    requires k <= |ps|
    decreases |ps| - k
  {
    if k == |ps| then 0 else Size(ps[k]) + ForestSizeFrom(ps, k + 1)
  }

  lemma {:induction false} ForestSizeSplit(ps: seq<Proof>, k: nat)
    requires k <= |ps|
    ensures ForestSize(ps) == ForestSize(ps[..k]) + ForestSizeFrom(ps, k)
    decreases |ps| - k
  {
    if k == |ps| {
      assert ps[..k] == ps;
    } else {
      ForestSizeSplit(ps, k + 1);
      assert ps[..k + 1][..k] == ps[..k];
    }
  }

  /** The description has one line per edge: a proof of `n` nodes lists `n - 1` premises. */
  lemma {:induction false} EdgeCount(p: Proof)
    ensures |Edges(p)| == Size(p) - 1
    decreases p, 1
  {
    EdgeCountFrom(p, 0);
    ForestSizeSplit(p.premises, 0);
  }

  lemma {:induction false} EdgeCountFrom(p: Proof, k: nat)
    requires k <= |p.premises|
    ensures |EdgesFrom(p, k)| == ForestSizeFrom(p.premises, k)
    decreases p, 0, |p.premises| - k
  {
    if k < |p.premises| {
      EdgeCount(p.premises[k]);
      EdgeCountFrom(p, k + 1);
    }
  }

  lemma {:induction false} LinesAppend(xs: seq<Edge>, ys: seq<Edge>)
    ensures Lines(xs + ys) == Lines(xs) + Lines(ys)
    decreases |xs|
  {
    if |xs| > 0 {
      assert (xs + ys)[1..] == xs[1..] + ys;
      LinesAppend(xs[1..], ys);
    } else {
      assert xs + ys == ys;
    }
  }

  /** The description is one line per edge, in the order of `Edges`. */
  lemma {:induction false} DescribeEdges(p: Proof)
    ensures Describe(p) == Lines(Edges(p))
    decreases p, 1
  {
    DescribeEdgesFrom(p, 0);
  }

  lemma {:induction false} DescribeEdgesFrom(p: Proof, k: nat)
    requires k <= |p.premises|
    ensures DescribeFrom(p, k) == Lines(EdgesFrom(p, k))
    decreases p, 0, |p.premises| - k
  {
    if k < |p.premises| {
      var e := Edge(p.sequent, p.premises[k].sequent, p.rule);
      DescribeEdges(p.premises[k]);
      DescribeEdgesFrom(p, k + 1);
      LinesAppend([e] + Edges(p.premises[k]), EdgesFrom(p, k + 1));
      LinesAppend([e], Edges(p.premises[k]));
      assert Lines([e]) == EdgeLine(p.sequent, p.premises[k].sequent, p.rule);
    }
  }

  /** The children of every tree of a level, in order: the next level. */
  function NextLevel(level: seq<Proof>): seq<Proof>
    decreases |level|
  {
    if |level| == 0 then [] else NextLevel(level[..|level| - 1]) + level[|level| - 1].premises
  }

  /** The levels of a forest, from the given one down. */
  function Levels(level: seq<Proof>): seq<seq<Proof>>
    decreases ForestSize(level)
  {
    if |level| == 0 then []
    else
      NextLevelSize(level);
      [level] + Levels(NextLevel(level))
  }

  lemma {:induction false} NextLevelSize(level: seq<Proof>)
    ensures ForestSize(NextLevel(level)) + |level| == ForestSize(level)
    decreases |level|
  {
    if |level| > 0 {
      var init := level[..|level| - 1];
      NextLevelSize(init);
      ForestSizeAppend(NextLevel(init), level[|level| - 1].premises);
    }
  }

  lemma {:induction false} ForestSizeAppend(xs: seq<Proof>, ys: seq<Proof>)
    ensures ForestSize(xs + ys) == ForestSize(xs) + ForestSize(ys)
    decreases |ys|
  {
    if |ys| > 0 {
      var init := ys[..|ys| - 1];
      assert (xs + ys)[..|xs + ys| - 1] == xs + init;
      ForestSizeAppend(xs, init);
    } else {
      assert xs + ys == xs;
    }
  }

  /** `getBFSString`'s pushes for one level: each sequent's text, then two tabs. */
  function LevelParts(level: seq<Proof>): seq<string>
    decreases |level|
  {
    if |level| == 0 then [] else LevelParts(level[..|level| - 1]) + [Text(level[|level| - 1].sequent), "\t\t"]
  }

  /** The pushes for a list of levels: each level's parts, then a line break. */
  function LevelsParts(levels: seq<seq<Proof>>): seq<string>
    decreases |levels|
  {
    if |levels| == 0 then [] else LevelParts(levels[0]) + ["\n"] + LevelsParts(levels[1..])
  }

  /** `getBFSString`: the pushes for the levels of the tree, from the root down. */
  function BfsParts(p: Proof): seq<string> {
    LevelsParts(Levels([p]))
  }

  /** `getBFSString`'s result: its pushes joined. */
  function BfsText(p: Proof): string {
    FormulaPrinter.Concat(BfsParts(p))
  }

  lemma {:induction false} LevelPartsAppend(xs: seq<Proof>, ys: seq<Proof>)
    ensures LevelParts(xs + ys) == LevelParts(xs) + LevelParts(ys)
    decreases |ys|
  {
    if |ys| == 0 {
      assert xs + ys == xs;
    } else {
      var init := ys[..|ys| - 1];
      assert (xs + ys)[..|xs + ys| - 1] == xs + init;
      LevelPartsAppend(xs, init);
    }
  }

  /**
   * The pushes still to come while `rest` remains of the current level, in
   * the order it is taken, and `next` holds the trees already collected for
   * the level below: each tree of `rest` pushes its sequent and two tabs and
   * hands its premises to the next level, the last one also ends the line.
   */
  function Pending(rest: seq<Proof>, next: seq<Proof>): seq<string>
    decreases |rest|
  {
    if |rest| == 0 then LevelsParts(Levels(next))
    else [Text(rest[0].sequent), "\t\t"] + (if |rest| == 1 then ["\n"] else []) + Pending(rest[1..], next + rest[0].premises)
  }

  /** The parts of a level and the level below it, split after the level's first tree. */
  lemma {:induction false} PopParts(rest: seq<Proof>, next: seq<Proof>)
    requires |rest| > 0
    ensures LevelParts(rest) == [Text(rest[0].sequent), "\t\t"] + LevelParts(rest[1..])
    ensures next + NextLevel(rest) == (next + rest[0].premises) + NextLevel(rest[1..])
  {
    var first, tail := rest[0], rest[1..];
    assert rest == [first] + tail;
    assert [first][..0] == [];
    LevelPartsAppend([first], tail);
    NextLevelAppend([first], tail);
    assert NextLevel([first]) == first.premises;
  }

  /** The rest of a level pushes its parts, the line break, and then the levels below. */
  lemma {:induction false} PendingLine(rest: seq<Proof>, next: seq<Proof>)
    requires |rest| > 0
    ensures Pending(rest, next) == LevelParts(rest) + ["\n"] + LevelsParts(Levels(next + NextLevel(rest)))
    decreases |rest|
  {
    var after := next + rest[0].premises;
    var head := [Text(rest[0].sequent), "\t\t"];
    PopParts(rest, next);
    var below := LevelsParts(Levels(next + NextLevel(rest)));
    if |rest| == 1 {
      assert rest[1..] == [];
      assert after + NextLevel(rest[1..]) == after;
      assert Pending(rest[1..], after) == below;
      assert Pending(rest, next) == head + ["\n"] + below;
    } else {
      PendingLine(rest[1..], after);
      assert Pending(rest[1..], after) == LevelParts(rest[1..]) + ["\n"] + below;
      assert Pending(rest, next) == head + Pending(rest[1..], after);
    }
  }

  /** A whole level still to come gives the parts of the levels from it down. */
  lemma PendingLevel(level: seq<Proof>)
    ensures Pending(level, []) == LevelsParts(Levels(level))
  {
    if |level| > 0 {
      PendingLine(level, []);
      NextLevelSize(level);
      assert Levels(level) == [level] + Levels(NextLevel(level));
      assert Levels(level)[1..] == Levels(NextLevel(level));
      assert [] + NextLevel(level) == NextLevel(level);
    }
  }

  /**
   * One turn of `getBFSString`'s loop inside a level keeps what is pushed
   * followed by what is still to come unchanged: the sequent and two tabs
   * are pushed.
   */
  lemma PendingStep(pushed: seq<string>, rest: seq<Proof>, next: seq<Proof>, line: string)
    requires |rest| > 1 && line == Text(rest[0].sequent)
    ensures (pushed + [line, "\t\t"]) + Pending(rest[1..], next + rest[0].premises) == pushed + Pending(rest, next)
  {
    assert Pending(rest, next) == [line, "\t\t"] + Pending(rest[1..], next + rest[0].premises);
  }

  /**
   * The turn that takes the last tree of a level also pushes the line
   * break, and the next level is what comes next.
   */
  lemma PendingStepLast(pushed: seq<string>, rest: seq<Proof>, next: seq<Proof>, line: string)
    requires |rest| == 1 && line == Text(rest[0].sequent)
    ensures (pushed + [line, "\t\t"] + ["\n"]) + Pending(next + rest[0].premises, []) == pushed + Pending(rest, next)
  {
    var after := next + rest[0].premises;
    var below := LevelsParts(Levels(after));
    assert rest[1..] == [];
    assert Pending(rest[1..], after) == below;
    PendingLevel(after);
    assert Pending(rest, next) == [line, "\t\t"] + ["\n"] + below;
  }

  /** Taking a tree and collecting its premises leaves one tree fewer to visit. */
  lemma PopSize(rest: seq<Proof>, next: seq<Proof>)
    requires |rest| > 0
    ensures ForestSize(rest[1..]) + ForestSize(next + rest[0].premises) < ForestSize(rest) + ForestSize(next)
  {
    assert rest == [rest[0]] + rest[1..];
    assert [rest[0]][..0] == [];
    ForestSizeAppend([rest[0]], rest[1..]);
    ForestSizeAppend(next, rest[0].premises);
  }

  lemma {:induction false} NextLevelAppend(xs: seq<Proof>, ys: seq<Proof>)
    ensures NextLevel(xs + ys) == NextLevel(xs) + NextLevel(ys)
    decreases |ys|
  {
    if |ys| == 0 {
      assert xs + ys == xs;
    } else {
      var init := ys[..|ys| - 1];
      assert (xs + ys)[..|xs + ys| - 1] == xs + init;
      NextLevelAppend(xs, init);
    }
  }

  lemma {:induction false} MaxHeightAppend(xs: seq<Proof>, ys: seq<Proof>)
    ensures MaxHeight(xs + ys) == (if MaxHeight(xs) > MaxHeight(ys) then MaxHeight(xs) else MaxHeight(ys))
    decreases |ys|
  {
    if |ys| == 0 {
      assert xs + ys == xs;
    } else {
      var init := ys[..|ys| - 1];
      assert (xs + ys)[..|xs + ys| - 1] == xs + init;
      MaxHeightAppend(xs, init);
    }
  }

  /** Going one level down lowers the height of a non-empty forest by one. */
  lemma {:induction false} NextLevelHeight(level: seq<Proof>)
    ensures MaxHeight(NextLevel(level)) == if |level| == 0 then 0 else MaxHeight(level) - 1
    decreases |level|
  {
    if |level| > 0 {
      var init := level[..|level| - 1];
      var last := level[|level| - 1];
      NextLevelHeight(init);
      MaxHeightAppend(NextLevel(init), last.premises);
      MaxHeightSpec(init);
    }
  }

  /** There are as many levels as the forest is high. */
  lemma {:induction false} LevelCount(level: seq<Proof>)
    ensures |Levels(level)| == MaxHeight(level)
    decreases ForestSize(level)
  {
    if |level| == 0 {
    } else {
      NextLevelSize(level);
      LevelCount(NextLevel(level));
      NextLevelHeight(level);
      MaxHeightSpec(level);
    }
  }

  /** `getBFSString` prints one line per depth of the tree: as many as its height. */
  lemma BfsLineCount(p: Proof)
    ensures |Levels([p])| == Height(p)
  {
    LevelCount([p]);
    assert [p][..0] == [];
  }

  lemma {:induction false} LevelPartsCount(level: seq<Proof>)
    ensures |LevelParts(level)| == 2 * |level|
    decreases |level|
  {
    if |level| > 0 {
      LevelPartsCount(level[..|level| - 1]);
    }
  }

  lemma {:induction false} LevelsPartsCount(level: seq<Proof>)
    ensures |LevelsParts(Levels(level))| == 2 * ForestSize(level) + MaxHeight(level)
    decreases ForestSize(level)
  {
    if |level| > 0 {
      NextLevelSize(level);
      LevelsPartsCount(NextLevel(level));
      NextLevelHeight(level);
      MaxHeightSpec(level);
      LevelPartsCount(level);
      assert Levels(level) == [level] + Levels(NextLevel(level));
      assert Levels(level)[1..] == Levels(NextLevel(level));
    }
  }

  /**
   * `getBFSString` pushes two parts for every node of the tree, its sequent
   * and the tabs, and one line break for every level.
   */
  lemma BfsPartsCount(p: Proof)
    ensures |BfsParts(p)| == 2 * Size(p) + Height(p)
  {
    LevelsPartsCount([p]);
    assert [p][..0] == [];
  }
}
