/**
 * The rules of the sequent calculus: Weakening and Exchange on either side,
 * and a Left and a Right rule for each connective. A rule is a tag; applying
 * it to its conclusion gives the list of premises. The propositional rules
 * work on the formula at index 0 of their cedent.
 */
module SequentRules {
  import opened Wrappers
  import opened Formulas
  import opened TruthValues
  import opened Sequents
  import CopyCreator

  datatype Rule =
    | LeftWeakening
    | RightWeakening
    | LeftExchange(index: nat)
    | RightExchange(index: nat)
    | LeftImplication
    | RightImplication
    | LeftConjunction
    | RightConjunction
    | LeftDisjunction
    | RightDisjunction
    | LeftNegation
    | RightNegation

  /** The rule's display name, which the proof description prints. */
  function RuleName(r: Rule): string {
    var side := if OnTheLeft(r) then "Left " else "Right ";
    var name := match r
      case LeftWeakening | RightWeakening => "Weakening"
      case LeftExchange(_) | RightExchange(_) => "Exchange"
      case LeftImplication | RightImplication => "Implication"
      case LeftConjunction | RightConjunction => "Conjunction"
      case LeftDisjunction | RightDisjunction => "Disjunction"
      case LeftNegation | RightNegation => "Negation";
    side + name + " Rule"
  }

  /**
   * What the rules and the proof helpers throw. `NotPrincipal` has no
   * counterpart in the source, where a propositional rule is a closure over
   * the formula it was found for: it is the result of applying a rule tag to
   * a sequent whose index-0 formula is not of the rule's connective.
   */
  datatype RuleError =
    | NoFormulaOnTheRight
    | NoRule
    | TruthInSequent
    | FalsityInSequent
    | NotAVariable(inAntecedent: bool)
    | NotPrincipal

  predicate IsPropositional(r: Rule) {
    !(r.LeftWeakening? || r.RightWeakening? || r.LeftExchange? || r.RightExchange?)
  }

  /** A formula built by one of the four connectives. */
  predicate IsCompound(f: Formula) {
    f.Implication? || f.Conjunction? || f.Disjunction? || f.Negation?
  }

  /** `copySequent`: a sequent whose cedents are deep copies; copies of values are the values. */
  function CopySequent(antecedent: seq<Formula>, succedent: seq<Formula>): (s: Sequent)
    ensures s == Sequent(antecedent, succedent)
  {
    var a := seq(|antecedent|, i requires 0 <= i < |antecedent| => CopyCreator.Copy(antecedent[i]));
    var b := seq(|succedent|, i requires 0 <= i < |succedent| => CopyCreator.Copy(succedent[i]));
    assert a == antecedent && b == succedent;
    Sequent(a, b)
  }

  /** `slice(1)`: everything after index 0; an empty list stays empty. */
  function Rest(fs: seq<Formula>): (r: seq<Formula>)
    ensures |fs| > 0 ==> fs == [fs[0]] + r
    ensures |fs| == 0 ==> r == []
  {
    if |fs| == 0 then [] else fs[1..]
  }

  /** The list with positions `i` and `i + 1` exchanged. */
  function Swap(fs: seq<Formula>, i: nat): (r: seq<Formula>)
    requires i + 1 < |fs|
    ensures |r| == |fs|
  {
    fs[..i] + [fs[i + 1], fs[i]] + fs[i + 2..]
  }

  /** Applying a rule to its conclusion: the premises, in order. */
  function Premises(r: Rule, s: Sequent): Result<seq<Sequent>, RuleError> {
    var ant := s.antecedent;
    var suc := s.succedent;
    match r
    case LeftWeakening => Ok([CopySequent(Rest(ant), suc)])
    case RightWeakening => Ok([CopySequent(ant, Rest(suc))])
    case LeftExchange(i) =>
      if i >= |ant| - 1 then Err(NoFormulaOnTheRight) else Ok([CopySequent(Swap(ant, i), suc)])
    case RightExchange(i) =>
      if i >= |suc| - 1 then Err(NoFormulaOnTheRight) else Ok([CopySequent(ant, Swap(suc, i))])
    case LeftImplication =>
      if |ant| > 0 && ant[0].Implication? then
        Ok([CopySequent(ant[1..], [ant[0].left] + suc), CopySequent([ant[0].right] + ant[1..], suc)])
      else Err(NotPrincipal)
    case RightImplication =>
      if |suc| > 0 && suc[0].Implication? then
        Ok([CopySequent([suc[0].left] + ant, [suc[0].right] + suc[1..])])
      else Err(NotPrincipal)
    case LeftConjunction =>
      if |ant| > 0 && ant[0].Conjunction? then
        Ok([CopySequent([ant[0].left, ant[0].right] + ant[1..], suc)])
      else Err(NotPrincipal)
    case RightConjunction =>
      if |suc| > 0 && suc[0].Conjunction? then
        Ok([CopySequent(ant, [suc[0].left] + suc[1..]), CopySequent(ant, [suc[0].right] + suc[1..])])
      else Err(NotPrincipal)
    case LeftDisjunction =>
      if |ant| > 0 && ant[0].Disjunction? then
        Ok([CopySequent([ant[0].left] + ant[1..], suc), CopySequent([ant[0].right] + ant[1..], suc)])
      else Err(NotPrincipal)
    case RightDisjunction =>
      if |suc| > 0 && suc[0].Disjunction? then
        Ok([CopySequent(ant, [suc[0].left, suc[0].right] + suc[1..])])
      else Err(NotPrincipal)
    case LeftNegation =>
      if |ant| > 0 && ant[0].Negation? then
        Ok([CopySequent(ant[1..], [ant[0].formula] + suc)])
      else Err(NotPrincipal)
    case RightNegation =>
      if |suc| > 0 && suc[0].Negation? then
        Ok([CopySequent([suc[0].formula] + ant, suc[1..])])
      else Err(NotPrincipal)
  }

  /** `RuleFinder`: the Left or Right rule of the formula's connective; variables and constants have none. */
  function FindRule(f: Formula, inAntecedent: bool): (r: Result<Rule, RuleError>)
    ensures r.Ok? <==> IsCompound(f)
    ensures r.Ok? ==> IsPropositional(r.value)
  {
    match f
    case Implication(_, _) => Ok(if inAntecedent then LeftImplication else RightImplication)
    case Conjunction(_, _) => Ok(if inAntecedent then LeftConjunction else RightConjunction)
    case Disjunction(_, _) => Ok(if inAntecedent then LeftDisjunction else RightDisjunction)
    case Negation(_) => Ok(if inAntecedent then LeftNegation else RightNegation)
    case Variable(_) => Err(NoRule)
    case Truth => Err(NoRule)
    case Falsity => Err(NoRule)
  }

  /** `ConnectiveFinder`: whether the formula is built by a connective; constants are refused. */
  function IsConnective(f: Formula): (r: Result<bool, RuleError>)
    ensures r.Ok? <==> !f.Truth? && !f.Falsity?
    ensures r.Ok? ==> (r.value <==> IsCompound(f))
    ensures f.Truth? ==> r == Err(TruthInSequent)
    ensures f.Falsity? ==> r == Err(FalsityInSequent)
  {
    match f
    case Truth => Err(TruthInSequent)
    case Falsity => Err(FalsityInSequent)
    case Variable(_) => Ok(false)
    case _ => Ok(true)
  }

  // ---------------------------------------------------------------------
  // What the rules do
  // ---------------------------------------------------------------------

  /** An exchange is refused exactly when there is no formula to the right of the index. */
  lemma ExchangeRefused(s: Sequent, i: nat)
    ensures Premises(LeftExchange(i), s).Err? <==> i + 1 >= |s.antecedent|
    ensures Premises(RightExchange(i), s).Err? <==> i + 1 >= |s.succedent|
  {
  }

  /**
   * An exchange changes positions `i` and `i + 1` of its cedent and nothing
   * else, and exchanging the same positions again gives the conclusion back.
   */
  lemma ExchangeSwaps(s: Sequent, i: nat)
    requires i + 1 < |s.antecedent|
    ensures var p := Premises(LeftExchange(i), s).value[0];
      p.succedent == s.succedent && |p.antecedent| == |s.antecedent|
      && p.antecedent[i] == s.antecedent[i + 1] && p.antecedent[i + 1] == s.antecedent[i]
      && (forall k :: 0 <= k < |s.antecedent| && k != i && k != i + 1 ==> p.antecedent[k] == s.antecedent[k])
      && Premises(LeftExchange(i), p) == Ok([s])
  {
    var p := Premises(LeftExchange(i), s).value[0];
    assert Swap(p.antecedent, i) == s.antecedent;
  }

  lemma RightExchangeSwaps(s: Sequent, i: nat)
    requires i + 1 < |s.succedent|
    ensures var p := Premises(RightExchange(i), s).value[0];
      p.antecedent == s.antecedent && |p.succedent| == |s.succedent|
      && p.succedent[i] == s.succedent[i + 1] && p.succedent[i + 1] == s.succedent[i]
      && (forall k :: 0 <= k < |s.succedent| && k != i && k != i + 1 ==> p.succedent[k] == s.succedent[k])
      && Premises(RightExchange(i), p) == Ok([s])
  {
    var p := Premises(RightExchange(i), s).value[0];
    assert Swap(p.succedent, i) == s.succedent;
  }

  /** The position an exchange at `i` moves position `k` to (and back). */
  function Swapped(i: nat, k: nat): nat {
    if k == i then i + 1 else if k == i + 1 then i else k
  }

  lemma SwapAt(fs: seq<Formula>, i: nat)
    requires i + 1 < |fs|
    ensures forall k :: 0 <= k < |fs| ==> Swapped(i, k) < |fs| && Swap(fs, i)[k] == fs[Swapped(i, k)]
  {
  }

  lemma SwapSome(fs: seq<Formula>, i: nat, a: string -> bool)
    requires i + 1 < |fs|
    ensures SomeFalse(Swap(fs, i), a) <==> SomeFalse(fs, a)
    ensures SomeTrue(Swap(fs, i), a) <==> SomeTrue(fs, a)
  {
    var g := Swap(fs, i);
    SwapAt(fs, i);
    if SomeFalse(fs, a) {
      var k :| 0 <= k < |fs| && !Sem(fs[k], a);
      assert g[Swapped(i, k)] == fs[k];
    }
    if SomeTrue(fs, a) {
      var k :| 0 <= k < |fs| && Sem(fs[k], a);
      assert g[Swapped(i, k)] == fs[k];
    }
  }

  lemma SwapConstantFree(fs: seq<Formula>, i: nat)
    requires i + 1 < |fs|
    ensures CedentConstantFree(Swap(fs, i)) <==> CedentConstantFree(fs)
  {
    var g := Swap(fs, i);
    SwapAt(fs, i);
    if CedentConstantFree(g) {
      forall k | 0 <= k < |fs|
        ensures ConstantFree(fs[k])
      {
        assert g[Swapped(i, k)] == fs[k];
      }
    }
  }

  /** The connectives of a cedent, counted around two neighbouring positions. */
  lemma SplitConnectives(fs: seq<Formula>, i: nat)
    requires i + 1 < |fs|
    ensures CedentConnectives(fs)
      == CedentConnectives(fs[..i]) + Connectives(fs[i]) + Connectives(fs[i + 1]) + CedentConnectives(fs[i + 2..])
  {
    assert fs == fs[..i + 2] + fs[i + 2..];
    CedentConnectivesAppend(fs[..i + 2], fs[i + 2..]);
    assert fs[..i + 2][..i + 1] == fs[..i + 1];
    assert CedentConnectives(fs[..i + 2]) == CedentConnectives(fs[..i + 1]) + Connectives(fs[i + 1]);
    assert fs[..i + 1][..i] == fs[..i];
    assert CedentConnectives(fs[..i + 1]) == CedentConnectives(fs[..i]) + Connectives(fs[i]);
  }

  lemma SwapConnectives(fs: seq<Formula>, i: nat)
    requires i + 1 < |fs|
    ensures CedentConnectives(Swap(fs, i)) == CedentConnectives(fs)
  {
    var g := Swap(fs, i);
    SplitConnectives(fs, i);
    SplitConnectives(g, i);
    assert g[..i] == fs[..i];
    assert g[i + 2..] == fs[i + 2..];
  }

  /**
   * The structural rules give one premise. An exchange premise holds under
   * every assignment exactly when its conclusion does, and has the same
   * connectives and constants; a weakening premise that holds makes its
   * conclusion hold.
   */
  lemma StructuralRule(r: Rule, s: Sequent)
    requires !IsPropositional(r) && Premises(r, s).Ok?
    ensures |Premises(r, s).value| == 1
    ensures forall a: string -> bool :: Holds(Premises(r, s).value[0], a) ==> Holds(s, a)
    ensures (r.LeftExchange? || r.RightExchange?) ==>
      var p := Premises(r, s).value[0];
      SameTruth(s, [p]) && SequentConnectives(p) == SequentConnectives(s)
      && (SequentConstantFree(p) <==> SequentConstantFree(s))
  {
    var p := Premises(r, s).value[0];
    assert [p][0] == p;
    match r
    case LeftExchange(i) =>
      forall a: string -> bool
        ensures Holds(p, a) <==> Holds(s, a)
      {
        SwapSome(s.antecedent, i, a);
      }
      SwapConstantFree(s.antecedent, i);
      SwapConnectives(s.antecedent, i);
    case RightExchange(i) =>
      forall a: string -> bool
        ensures Holds(p, a) <==> Holds(s, a)
      {
        SwapSome(s.succedent, i, a);
      }
      SwapConstantFree(s.succedent, i);
      SwapConnectives(s.succedent, i);
    case LeftWeakening =>
      forall a: string -> bool
        ensures Holds(p, a) ==> Holds(s, a)
      {
        if |s.antecedent| > 0 {
          SomeFalseCons(s.antecedent[0], s.antecedent[1..], a);
        }
      }
    case RightWeakening =>
      forall a: string -> bool
        ensures Holds(p, a) ==> Holds(s, a)
      {
        if |s.succedent| > 0 {
          SomeTrueCons(s.succedent[0], s.succedent[1..], a);
        }
      }
  }

  /** One cedent of a sequent: the antecedent or the succedent. */
  function Cedent(s: Sequent, inAntecedent: bool): seq<Formula> {
    if inAntecedent then s.antecedent else s.succedent
  }

  /** The sequent with one cedent replaced and the other kept. */
  function WithCedent(s: Sequent, inAntecedent: bool, c: seq<Formula>): (t: Sequent)
    ensures Cedent(t, inAntecedent) == c && Cedent(t, !inAntecedent) == Cedent(s, !inAntecedent)
  {
    if inAntecedent then Sequent(c, s.succedent) else Sequent(s.antecedent, c)
  }

  function ExchangeRule(inAntecedent: bool, i: nat): Rule {
    if inAntecedent then LeftExchange(i) else RightExchange(i)
  }

  /** The sequent with positions `i` and `i + 1` of one cedent exchanged. */
  function Exchanged(s: Sequent, inAntecedent: bool, i: nat): (t: Sequent)
    requires i + 1 < |Cedent(s, inAntecedent)|
    ensures |Cedent(t, inAntecedent)| == |Cedent(s, inAntecedent)|
  {
    WithCedent(s, inAntecedent, Swap(Cedent(s, inAntecedent), i))
  }

  /** The exchange rule at `i` has the exchanged sequent as its single premise. */
  lemma ExchangedPremise(s: Sequent, inAntecedent: bool, i: nat)
    requires i + 1 < |Cedent(s, inAntecedent)|
    ensures Premises(ExchangeRule(inAntecedent, i), s) == Ok([Exchanged(s, inAntecedent, i)])
  {
  }

  /** The sequent with index 0 of one cedent dropped, as a weakening leaves it. */
  function Weakened(s: Sequent, inAntecedent: bool): (t: Sequent)
    ensures Cedent(t, inAntecedent) == Rest(Cedent(s, inAntecedent))
    ensures Cedent(t, !inAntecedent) == Cedent(s, !inAntecedent)
  {
    WithCedent(s, inAntecedent, Rest(Cedent(s, inAntecedent)))
  }

  /** The weakening on a side has the weakened sequent as its single premise. */
  lemma WeakenedPremise(s: Sequent, inAntecedent: bool)
    ensures Premises(if inAntecedent then LeftWeakening else RightWeakening, s) == Ok([Weakened(s, inAntecedent)])
  {
  }

  /**
   * A weakening always applies and has one premise: the formula at index 0
   * of its cedent is gone, every later formula moves down one place, and the
   * other cedent is unchanged. An empty cedent stays empty.
   */
  lemma WeakeningDrops(s: Sequent, inAntecedent: bool)
    ensures var r := Premises(if inAntecedent then LeftWeakening else RightWeakening, s);
      var c := Cedent(s, inAntecedent);
      r.Ok? && |r.value| == 1
      && |Cedent(r.value[0], inAntecedent)| == (if |c| == 0 then 0 else |c| - 1)
      && (forall k :: 0 <= k < |Cedent(r.value[0], inAntecedent)| ==> Cedent(r.value[0], inAntecedent)[k] == c[k + 1])
      && Cedent(r.value[0], !inAntecedent) == Cedent(s, !inAntecedent)
  {
    WeakenedPremise(s, inAntecedent);
  }

  /** Whether the rule works on the antecedent. */
  predicate OnTheLeft(r: Rule) {
    r.LeftWeakening? || r.LeftExchange? || r.LeftImplication? || r.LeftConjunction?
    || r.LeftDisjunction? || r.LeftNegation?
  }

  /** Every rule is sound: when all its premises hold under `a`, so does its conclusion. */
  lemma RuleSound(r: Rule, s: Sequent)
    requires Premises(r, s).Ok?
    ensures forall a: string -> bool :: AllHold(Premises(r, s).value, a) ==> Holds(s, a)
  {
    if IsPropositional(r) {
      assert OutsideRule(s, OnTheLeft(r)) == Ok(r);
      PropositionalRule(s, OnTheLeft(r));
    } else {
      StructuralRule(r, s);
      var p := Premises(r, s).value[0];
      assert Premises(r, s).value == [p];
    }
  }

  /** The rule `RuleFinder` picks for the formula at index 0 of a cedent, if any. */
  function OutsideRule(s: Sequent, inAntecedent: bool): Result<Rule, RuleError> {
    var cedent := Cedent(s, inAntecedent);
    if |cedent| == 0 then Err(NoRule) else FindRule(cedent[0], inAntecedent)
  }

  predicate AllHold(ps: seq<Sequent>, a: string -> bool) {
    forall k :: 0 <= k < |ps| ==> Holds(ps[k], a)
  }

  predicate AllConstantFree(ps: seq<Sequent>) {
    forall k :: 0 <= k < |ps| ==> SequentConstantFree(ps[k])
  }

  predicate AllSmaller(ps: seq<Sequent>, n: nat) {
    forall k :: 0 <= k < |ps| ==> SequentConnectives(ps[k]) < n
  }

  /**
   * What makes a rule application a step of the proof search: one or two
   * premises, each with fewer connective occurrences than the conclusion,
   * and all free of constants exactly when the conclusion is.
   */
  predicate Reduces(s: Sequent, ps: seq<Sequent>) {
    1 <= |ps| <= 2
    && AllSmaller(ps, SequentConnectives(s))
    && (SequentConstantFree(s) <==> AllConstantFree(ps))
  }

  /**
   * Under every assignment the conclusion holds exactly when all premises
   * do: the rule is sound (left to right) and invertible (right to left).
   */
  ghost predicate SameTruth(s: Sequent, ps: seq<Sequent>) {
    forall a: string -> bool :: Holds(s, a) <==> AllHold(ps, a)
  }

  /**
   * A propositional rule found for a compound formula at index 0 applies,
   * reduces the sequent and keeps its truth under every assignment.
   */
  lemma PropositionalRule(s: Sequent, inAntecedent: bool)
    requires OutsideRule(s, inAntecedent).Ok?
    ensures Premises(OutsideRule(s, inAntecedent).value, s).Ok?
    ensures Reduces(s, Premises(OutsideRule(s, inAntecedent).value, s).value)
    ensures SameTruth(s, Premises(OutsideRule(s, inAntecedent).value, s).value)
  {
    if inAntecedent {
      LeftRule(s);
    } else {
      RightRule(s);
    }
  }

  lemma OneStep(s: Sequent, p: Sequent)
    requires forall a: string -> bool :: Holds(s, a) <==> Holds(p, a)
    requires SequentConnectives(p) < SequentConnectives(s)
    requires SequentConstantFree(s) <==> SequentConstantFree(p)
    ensures Reduces(s, [p]) && SameTruth(s, [p])
  {
    assert [p][0] == p;
  }

  lemma TwoSteps(s: Sequent, p: Sequent, q: Sequent)
    requires forall a: string -> bool :: Holds(s, a) <==> Holds(p, a) && Holds(q, a)
    requires SequentConnectives(p) < SequentConnectives(s) && SequentConnectives(q) < SequentConnectives(s)
    requires SequentConstantFree(s) <==> SequentConstantFree(p) && SequentConstantFree(q)
    ensures Reduces(s, [p, q]) && SameTruth(s, [p, q])
  {
    var ps := [p, q];
    assert ps[0] == p && ps[1] == q;
  }

  lemma LeftImplicationStep(l: Formula, r: Formula, rest: seq<Formula>, suc: seq<Formula>)
    ensures var s := Sequent([Implication(l, r)] + rest, suc);
      var ps := [Sequent(rest, [l] + suc), Sequent([r] + rest, suc)];
      Reduces(s, ps) && SameTruth(s, ps)
  {
    var s, p, q := Sequent([Implication(l, r)] + rest, suc), Sequent(rest, [l] + suc), Sequent([r] + rest, suc);
    forall a: string -> bool
      ensures Holds(s, a) <==> Holds(p, a) && Holds(q, a)
    {
      SomeFalseCons(Implication(l, r), rest, a);
      SomeTrueCons(l, suc, a);
      SomeFalseCons(r, rest, a);
    }
    CedentConnectivesCons(Implication(l, r), rest);
    CedentConnectivesCons(l, suc);
    CedentConnectivesCons(r, rest);
    ConstantFreeCons(Implication(l, r), rest);
    ConstantFreeCons(l, suc);
    ConstantFreeCons(r, rest);
    TwoSteps(s, p, q);
  }

  lemma LeftConjunctionStep(l: Formula, r: Formula, rest: seq<Formula>, suc: seq<Formula>)
    ensures var s := Sequent([Conjunction(l, r)] + rest, suc);
      var ps := [Sequent([l, r] + rest, suc)];
      Reduces(s, ps) && SameTruth(s, ps)
  {
    var s, p := Sequent([Conjunction(l, r)] + rest, suc), Sequent([l, r] + rest, suc);
    assert [l, r] + rest == [l] + ([r] + rest);
    forall a: string -> bool
      ensures Holds(s, a) <==> Holds(p, a)
    {
      SomeFalseCons(Conjunction(l, r), rest, a);
      SomeFalseCons(r, rest, a);
      SomeFalseCons(l, [r] + rest, a);
    }
    CedentConnectivesCons(Conjunction(l, r), rest);
    CedentConnectivesCons(r, rest);
    CedentConnectivesCons(l, [r] + rest);
    ConstantFreeCons(Conjunction(l, r), rest);
    ConstantFreeCons(r, rest);
    ConstantFreeCons(l, [r] + rest);
    OneStep(s, p);
  }

  lemma LeftDisjunctionStep(l: Formula, r: Formula, rest: seq<Formula>, suc: seq<Formula>)
    ensures var s := Sequent([Disjunction(l, r)] + rest, suc);
      var ps := [Sequent([l] + rest, suc), Sequent([r] + rest, suc)];
      Reduces(s, ps) && SameTruth(s, ps)
  {
    var s, p, q := Sequent([Disjunction(l, r)] + rest, suc), Sequent([l] + rest, suc), Sequent([r] + rest, suc);
    forall a: string -> bool
      ensures Holds(s, a) <==> Holds(p, a) && Holds(q, a)
    {
      SomeFalseCons(Disjunction(l, r), rest, a);
      SomeFalseCons(l, rest, a);
      SomeFalseCons(r, rest, a);
    }
    CedentConnectivesCons(Disjunction(l, r), rest);
    CedentConnectivesCons(l, rest);
    CedentConnectivesCons(r, rest);
    ConstantFreeCons(Disjunction(l, r), rest);
    ConstantFreeCons(l, rest);
    ConstantFreeCons(r, rest);
    TwoSteps(s, p, q);
  }

  lemma LeftNegationStep(g: Formula, rest: seq<Formula>, suc: seq<Formula>)
    ensures var s := Sequent([Negation(g)] + rest, suc);
      var ps := [Sequent(rest, [g] + suc)];
      Reduces(s, ps) && SameTruth(s, ps)
  {
    var s, p := Sequent([Negation(g)] + rest, suc), Sequent(rest, [g] + suc);
    forall a: string -> bool
      ensures Holds(s, a) <==> Holds(p, a)
    {
      SomeFalseCons(Negation(g), rest, a);
      SomeTrueCons(g, suc, a);
    }
    CedentConnectivesCons(Negation(g), rest);
    CedentConnectivesCons(g, suc);
    ConstantFreeCons(Negation(g), rest);
    ConstantFreeCons(g, suc);
    OneStep(s, p);
  }

  lemma RightImplicationStep(l: Formula, r: Formula, ant: seq<Formula>, rest: seq<Formula>)
    ensures var s := Sequent(ant, [Implication(l, r)] + rest);
      var ps := [Sequent([l] + ant, [r] + rest)];
      Reduces(s, ps) && SameTruth(s, ps)
  {
    var s, p := Sequent(ant, [Implication(l, r)] + rest), Sequent([l] + ant, [r] + rest);
    forall a: string -> bool
      ensures Holds(s, a) <==> Holds(p, a)
    {
      SomeTrueCons(Implication(l, r), rest, a);
      SomeFalseCons(l, ant, a);
      SomeTrueCons(r, rest, a);
    }
    CedentConnectivesCons(Implication(l, r), rest);
    CedentConnectivesCons(l, ant);
    CedentConnectivesCons(r, rest);
    ConstantFreeCons(Implication(l, r), rest);
    ConstantFreeCons(l, ant);
    ConstantFreeCons(r, rest);
    OneStep(s, p);
  }

  lemma RightConjunctionStep(l: Formula, r: Formula, ant: seq<Formula>, rest: seq<Formula>)
    ensures var s := Sequent(ant, [Conjunction(l, r)] + rest);
      var ps := [Sequent(ant, [l] + rest), Sequent(ant, [r] + rest)];
      Reduces(s, ps) && SameTruth(s, ps)
  {
    var s, p, q := Sequent(ant, [Conjunction(l, r)] + rest), Sequent(ant, [l] + rest), Sequent(ant, [r] + rest);
    forall a: string -> bool
      ensures Holds(s, a) <==> Holds(p, a) && Holds(q, a)
    {
      SomeTrueCons(Conjunction(l, r), rest, a);
      SomeTrueCons(l, rest, a);
      SomeTrueCons(r, rest, a);
    }
    CedentConnectivesCons(Conjunction(l, r), rest);
    CedentConnectivesCons(l, rest);
    CedentConnectivesCons(r, rest);
    ConstantFreeCons(Conjunction(l, r), rest);
    ConstantFreeCons(l, rest);
    ConstantFreeCons(r, rest);
    TwoSteps(s, p, q);
  }

  lemma RightDisjunctionStep(l: Formula, r: Formula, ant: seq<Formula>, rest: seq<Formula>)
    ensures var s := Sequent(ant, [Disjunction(l, r)] + rest);
      var ps := [Sequent(ant, [l, r] + rest)];
      Reduces(s, ps) && SameTruth(s, ps)
  {
    var s, p := Sequent(ant, [Disjunction(l, r)] + rest), Sequent(ant, [l, r] + rest);
    assert [l, r] + rest == [l] + ([r] + rest);
    forall a: string -> bool
      ensures Holds(s, a) <==> Holds(p, a)
    {
      SomeTrueCons(Disjunction(l, r), rest, a);
      SomeTrueCons(r, rest, a);
      SomeTrueCons(l, [r] + rest, a);
    }
    CedentConnectivesCons(Disjunction(l, r), rest);
    CedentConnectivesCons(r, rest);
    CedentConnectivesCons(l, [r] + rest);
    ConstantFreeCons(Disjunction(l, r), rest);
    ConstantFreeCons(r, rest);
    ConstantFreeCons(l, [r] + rest);
    OneStep(s, p);
  }

  lemma RightNegationStep(g: Formula, ant: seq<Formula>, rest: seq<Formula>)
    ensures var s := Sequent(ant, [Negation(g)] + rest);
      var ps := [Sequent([g] + ant, rest)];
      Reduces(s, ps) && SameTruth(s, ps)
  {
    var s, p := Sequent(ant, [Negation(g)] + rest), Sequent([g] + ant, rest);
    forall a: string -> bool
      ensures Holds(s, a) <==> Holds(p, a)
    {
      SomeTrueCons(Negation(g), rest, a);
      SomeFalseCons(g, ant, a);
    }
    CedentConnectivesCons(Negation(g), rest);
    CedentConnectivesCons(g, ant);
    ConstantFreeCons(Negation(g), rest);
    ConstantFreeCons(g, ant);
    OneStep(s, p);
  }

  lemma LeftRule(s: Sequent)
    requires |s.antecedent| > 0 && IsCompound(s.antecedent[0])
    ensures Premises(FindRule(s.antecedent[0], true).value, s).Ok?
    ensures Reduces(s, Premises(FindRule(s.antecedent[0], true).value, s).value)
    ensures SameTruth(s, Premises(FindRule(s.antecedent[0], true).value, s).value)
  {
    var rest := s.antecedent[1..];
    var suc := s.succedent;
    assert s.antecedent == [s.antecedent[0]] + rest;
    match s.antecedent[0]
    case Implication(l, r) => LeftImplicationStep(l, r, rest, suc);
    case Conjunction(l, r) => LeftConjunctionStep(l, r, rest, suc);
    case Disjunction(l, r) => LeftDisjunctionStep(l, r, rest, suc);
    case Negation(g) => LeftNegationStep(g, rest, suc);
  }

  lemma RightRule(s: Sequent)
    requires |s.succedent| > 0 && IsCompound(s.succedent[0])
    ensures Premises(FindRule(s.succedent[0], false).value, s).Ok?
    ensures Reduces(s, Premises(FindRule(s.succedent[0], false).value, s).value)
    ensures SameTruth(s, Premises(FindRule(s.succedent[0], false).value, s).value)
  {
    var ant := s.antecedent;
    var rest := s.succedent[1..];
    assert s.succedent == [s.succedent[0]] + rest;
    match s.succedent[0]
    case Implication(l, r) => RightImplicationStep(l, r, ant, rest);
    case Conjunction(l, r) => RightConjunctionStep(l, r, ant, rest);
    case Disjunction(l, r) => RightDisjunctionStep(l, r, ant, rest);
    case Negation(g) => RightNegationStep(g, ant, rest);
  }

  // ---------------------------------------------------------------------
  // Finding the next formula and the axiom
  // ---------------------------------------------------------------------

  /** Where the next compound formula is: its cedent and index, or nowhere. */
  datatype Position = InAntecedent(index: nat) | InSuccedent(index: nat) | NoConnective

  /** `findIndex` with `ConnectiveFinder` from index `k` on: the first compound formula, or the constant met before one. */
  function FindConnective(fs: seq<Formula>, k: nat): Result<Option<nat>, RuleError>
    requires k <= |fs|
    decreases |fs| - k
  {
    if k == |fs| then Ok(None)
    else
      var compound :- IsConnective(fs[k]);
      if compound then Ok(Some(k)) else FindConnective(fs, k + 1)
  }

  /** `hasConnectiveFormula`: the antecedent is searched first, then the succedent. */
  function HasConnectiveFormula(s: Sequent): Result<Position, RuleError> {
    var inAntecedent :- FindConnective(s.antecedent, 0);
    if inAntecedent.Some? then Ok(InAntecedent(inAntecedent.value))
    else
      var inSuccedent :- FindConnective(s.succedent, 0);
      if inSuccedent.Some? then Ok(InSuccedent(inSuccedent.value)) else Ok(NoConnective)
  }

  predicate AllVariables(fs: seq<Formula>) {
    forall i :: 0 <= i < |fs| ==> fs[i].Variable?
  }

  /**
   * The search from `k` finds the first compound formula when only variables
   * come before it, reports none exactly when only variables follow `k`, and
   * otherwise fails on the first constant.
   */
  lemma {:induction false} FindConnectiveSpec(fs: seq<Formula>, k: nat)
    requires k <= |fs|
    ensures var r := FindConnective(fs, k);
      (r.Ok? && r.value.Some? ==>
        k <= r.value.value < |fs| && IsCompound(fs[r.value.value])
        && forall m :: k <= m < r.value.value ==> fs[m].Variable?)
      && (r == Ok(None) <==> forall m :: k <= m < |fs| ==> fs[m].Variable?)
      && (r.Err? ==>
            (exists m :: k <= m < |fs| && !ConstantFree(fs[m]))
            && (r.error == TruthInSequent || r.error == FalsityInSequent))
    decreases |fs| - k
  {
    if k < |fs| {
      FindConnectiveSpec(fs, k + 1);
    }
  }

  /**
   * The next compound formula is the first one of the antecedent, or, when
   * the antecedent holds only variables, the first one of the succedent.
   * "None" means both cedents hold only variables. The search fails only on
   * a sequent with a constant in it.
   */
  lemma HasConnectiveSpec(s: Sequent)
    ensures var r := HasConnectiveFormula(s);
      (r.Ok? && r.value.InAntecedent? ==>
        r.value.index < |s.antecedent| && IsCompound(s.antecedent[r.value.index])
        && forall m :: 0 <= m < r.value.index ==> s.antecedent[m].Variable?)
      && (r.Ok? && r.value.InSuccedent? ==>
        AllVariables(s.antecedent) && r.value.index < |s.succedent| && IsCompound(s.succedent[r.value.index])
        && forall m :: 0 <= m < r.value.index ==> s.succedent[m].Variable?)
      && (r == Ok(NoConnective) <==> AllVariables(s.antecedent) && AllVariables(s.succedent))
      && (r.Err? ==> !SequentConstantFree(s) && (r.error == TruthInSequent || r.error == FalsityInSequent))
  {
    FindConnectiveSpec(s.antecedent, 0);
    FindConnectiveSpec(s.succedent, 0);
  }

  /** `(form as Variable).name`: a variable's name, and `undefined` for anything else. */
  function Name(f: Formula): Option<string> {
    if f.Variable? then Some(f.name) else None
  }

  function Names(fs: seq<Formula>): (ns: seq<Option<string>>)
    ensures |ns| == |fs|
  {
    seq(|fs|, i requires 0 <= i < |fs| => Name(fs[i]))
  }

  /** The inner loop of `findAxiom`: the largest index below `j` whose name equals `x`. */
  function MatchBelow(x: Option<string>, names: seq<Option<string>>, j: nat): Option<nat>
    requires j <= |names|
  {
    if j == 0 then None
    else if names[j - 1] == x then Some(j - 1)
    else MatchBelow(x, names, j - 1)
  }

  /** The outer loop of `findAxiom`: antecedent indices below `i`, from the largest down. */
  function PairBelow(an: seq<Option<string>>, sn: seq<Option<string>>, i: nat): Option<(nat, nat)>
    requires i <= |an|
  {
    if i == 0 then None
    else
      match MatchBelow(an[i - 1], sn, |sn|)
      case Some(j) => Some((i - 1, j))
      case None => PairBelow(an, sn, i - 1)
  }

  /**
   * `findAxiom`: the checks that the cedents hold only variables look at
   * index 0 only (the `every` callbacks return `undefined`, which stops
   * them); then the pair of equal names with the largest antecedent index,
   * and for it the largest succedent index.
   */
  function FindAxiomOf(s: Sequent): Result<Option<(nat, nat)>, RuleError> {
    if |s.antecedent| > 0 && !s.antecedent[0].Variable? then Err(NotAVariable(true))
    else if |s.succedent| > 0 && !s.succedent[0].Variable? then Err(NotAVariable(false))
    else Ok(PairBelow(Names(s.antecedent), Names(s.succedent), |s.antecedent|))
  }

  lemma {:induction false} MatchBelowSpec(x: Option<string>, names: seq<Option<string>>, j: nat)
    requires j <= |names|
    ensures var r := MatchBelow(x, names, j);
      (r.Some? ==> r.value < j && names[r.value] == x && forall m :: r.value < m < j ==> names[m] != x)
      && (r.None? <==> forall m :: 0 <= m < j ==> names[m] != x)
    decreases j
  {
    if j > 0 {
      MatchBelowSpec(x, names, j - 1);
    }
  }

  /**
   * The pair found has equal names, and no pair with a larger antecedent
   * index, or the same antecedent index and a larger succedent index, has;
   * nothing is found exactly when no two names are equal.
   */
  lemma {:induction false} PairBelowSpec(an: seq<Option<string>>, sn: seq<Option<string>>, i: nat)
    requires i <= |an|
    ensures var r := PairBelow(an, sn, i);
      (r.Some? ==>
        var (p, q) := r.value;
        p < i && q < |sn| && an[p] == sn[q]
        && (forall m, n :: p < m < i && 0 <= n < |sn| ==> an[m] != sn[n])
        && (forall n :: q < n < |sn| ==> an[p] != sn[n]))
      && (r.None? <==> forall m, n :: 0 <= m < i && 0 <= n < |sn| ==> an[m] != sn[n])
    decreases i
  {
    if i > 0 {
      MatchBelowSpec(an[i - 1], sn, |sn|);
      PairBelowSpec(an, sn, i - 1);
    }
  }

  /**
   * `findAxiom` with its loops: after the index-0 checks, the antecedent
   * index counts down from the last, and for each the succedent index counts
   * down from the last; the first pair of equal names is returned.
   */
  method FindAxiom(s: Sequent) returns (r: Result<Option<(nat, nat)>, RuleError>)
    ensures r == FindAxiomOf(s)
  {
    if |s.antecedent| > 0 && !s.antecedent[0].Variable? {
      return Err(NotAVariable(true));
    }
    if |s.succedent| > 0 && !s.succedent[0].Variable? {
      return Err(NotAVariable(false));
    }
    var antecedentNames := Names(s.antecedent);
    var succedentNames := Names(s.succedent);
    for antIndex := |antecedentNames| downto 0
      invariant PairBelow(antecedentNames, succedentNames, |antecedentNames|)
        == PairBelow(antecedentNames, succedentNames, antIndex)
    {
      for sucIndex := |succedentNames| downto 0
        invariant MatchBelow(antecedentNames[antIndex], succedentNames, |succedentNames|)
          == MatchBelow(antecedentNames[antIndex], succedentNames, sucIndex)
      {
        if antecedentNames[antIndex] == succedentNames[sucIndex] {
          return Ok(Some((antIndex, sucIndex)));
        }
      }
    }
    return Ok(None);
  }
}
