// The proof tree of SequentSolver.ts: a node holds a sequent, the rule used
// on it and up to two premise nodes. `solve` grows the tree in place from a
// single node, `height`, `toString` and `getBFSString` read it.
//
// Each operation is proved against the value-level search of ProofSearch:
// the tree a successful `Solve` leaves behind is exactly the proof that
// `ProofSearch.Solve` computes, and the readers agree with the functions on
// that proof.

module SequentSolver {
  import opened Wrappers
  import opened Sequents
  import FormulaPrinter
  import opened SequentRules
  import ProofSearch

  class ProofTree {
    const sequent: Sequent
    var premiseOne: ProofTree?
    var premiseTwo: ProofTree?
    var usedRule: Option<Rule>
    ghost var Repr: set<object>

    /** Every node of the tree is in `Repr`, the premises' trees are disjoint and own their nodes. */
    ghost predicate Valid()
      reads this, Repr
      decreases Repr
    {
      this in Repr
      && (premiseOne == null ==> premiseTwo == null)
      && (premiseOne != null ==>
            premiseOne in Repr && premiseOne.Repr <= Repr && this !in premiseOne.Repr && premiseOne.Valid())
      && (premiseTwo != null ==>
            premiseTwo in Repr && premiseTwo.Repr <= Repr && this !in premiseTwo.Repr && premiseTwo.Valid()
            && premiseOne.Repr !! premiseTwo.Repr)
    }

    /** The proof the tree stands for. */
    ghost function Model(): ProofSearch.Proof
      reads this, Repr
      requires Valid()
      decreases Repr
    {
      ProofSearch.Proof(sequent, usedRule,
        (if premiseOne == null then [] else [premiseOne.Model()])
        + (if premiseTwo == null then [] else [premiseTwo.Model()]))
    }

    /** A node with no premises and no rule yet, as the constructor makes it. */
    predicate IsLeaf()
      reads this
    {
      premiseOne == null && premiseTwo == null && usedRule.None?
    }

    constructor(sequent: Sequent)
      ensures this.sequent == sequent && IsLeaf()
      ensures Valid() && Repr == {this}
      ensures Model() == ProofSearch.Proof(sequent, None, [])
    {
      this.sequent := sequent;
      premiseOne := null;
      premiseTwo := null;
      usedRule := None;
      Repr := {this};
    }

    /** `height`: one more than the higher premise, missing premises counting 0. */
    function Height(): (h: nat)
      reads this, Repr
      requires Valid()
      ensures h == ProofSearch.Height(Model())
      decreases Repr
    {
      var one := if premiseOne == null then 0 else premiseOne.Height();
      var two := if premiseTwo == null then 0 else premiseTwo.Height();
      HeightOfPremises();
      1 + (if one > two then one else two)
    }

    /** The height of the model read off the premises' models. */
    lemma HeightOfPremises()
      requires Valid()
      ensures var one := if premiseOne == null then 0 else ProofSearch.Height(premiseOne.Model());
        var two := if premiseTwo == null then 0 else ProofSearch.Height(premiseTwo.Model());
        ProofSearch.Height(Model()) == 1 + (if one > two then one else two)
    {
      var ps := Model().premises;
      if premiseTwo != null {
        assert ps == [premiseOne.Model(), premiseTwo.Model()];
        assert ps[..1] == [premiseOne.Model()];
        assert ps[..1][..0] == [];
        assert ProofSearch.MaxHeight(ps[..1]) == ProofSearch.Height(premiseOne.Model());
      } else if premiseOne != null {
        assert ps == [premiseOne.Model()];
        assert ps[..0] == [];
        assert ProofSearch.MaxHeight(ps) == ProofSearch.Height(premiseOne.Model());
      } else {
        assert ps == [];
      }
    }

    /**
     * `toString`: for each premise, a line naming the conclusion, the
     * premise and the rule, followed by the premise's own description.
     */
    function ToString(): (text: string)
      reads this, Repr
      requires Valid()
      ensures text == ProofSearch.Describe(Model())
      decreases Repr
    {
      var one := if premiseOne == null then ""
        else ProofSearch.EdgeLine(sequent, premiseOne.sequent, usedRule) + premiseOne.ToString();
      var two := if premiseTwo == null then ""
        else ProofSearch.EdgeLine(sequent, premiseTwo.sequent, usedRule) + premiseTwo.ToString();
      DescribePremises();
      one + two
    }

    /** The description of the model read off the premises' descriptions. */
    lemma DescribePremises()
      requires Valid()
      ensures var one := if premiseOne == null then ""
          else ProofSearch.EdgeLine(sequent, premiseOne.sequent, usedRule) + ProofSearch.Describe(premiseOne.Model());
        var two := if premiseTwo == null then ""
          else ProofSearch.EdgeLine(sequent, premiseTwo.sequent, usedRule) + ProofSearch.Describe(premiseTwo.Model());
        ProofSearch.Describe(Model()) == one + two
    {
      var m := Model();
      if premiseTwo != null {
        assert m.premises == [premiseOne.Model(), premiseTwo.Model()];
        assert ProofSearch.DescribeFrom(m, 2) == "";
        assert ProofSearch.DescribeFrom(m, 1)
          == ProofSearch.EdgeLine(sequent, premiseTwo.sequent, usedRule) + ProofSearch.Describe(premiseTwo.Model());
      } else if premiseOne != null {
        assert m.premises == [premiseOne.Model()];
        assert ProofSearch.DescribeFrom(m, 1) == "";
      } else {
        assert m.premises == [];
      }
    }
    /**
     * `getBFSString`: take nodes from the end of the queue, print each
     * sequent followed by two tabs and put its premises at the front of the
     * next queue, first premise first; when the queue runs out, end the line
     * and go on with the next queue. The taking from the end and the adding
     * at the front cancel out, so the text is the tree level by level, left
     * to right.
     */
    method BfsString() returns (text: string)
      requires Valid()
      ensures text == ProofSearch.BfsText(Model())
    {
      assert MirrorAt([this], [Model()], 0);
      var stringBuilder := LevelOrder(Model(), ProofSearch.Pending([Model()], []));
      ProofSearch.PendingLevel([Model()]);
      text := FormulaPrinter.Concat(stringBuilder);
    }

    /** The loop of `getBFSString` on a tree standing for `root`: what it pushes, before the join. */
    method LevelOrder(ghost root: ProofSearch.Proof, ghost target: seq<string>) returns (stringBuilder: seq<string>)
      requires MirrorAt([this], [root], 0) && target == ProofSearch.Pending([root], [])
      ensures stringBuilder == target
    {
      stringBuilder := [];
      var queue: seq<ProofTree> := [this];
      var newqueue: seq<ProofTree> := [];
      ghost var rest := [root];
      ghost var next: seq<ProofSearch.Proof> := [];
      while |queue| != 0
        invariant |queue| == |rest| && |newqueue| == |next|
        invariant forall k :: 0 <= k < |queue| ==> MirrorAt(queue, rest, k)
        invariant forall k :: 0 <= k < |newqueue| ==> MirrorAt(newqueue, next, k)
        invariant |rest| == 0 ==> |next| == 0
        invariant stringBuilder + ProofSearch.Pending(rest, next) == target
        decreases ProofSearch.ForestSize(rest) + ProofSearch.ForestSize(next)
      {
        ProofSearch.PopSize(rest, next);
        var line;
        ghost var before := next;
        line, queue, newqueue, next := Visit(queue, newqueue, rest, next);
        if |queue| == 0 {
          ProofSearch.PendingStepLast(stringBuilder, rest, before, line);
        } else {
          ProofSearch.PendingStep(stringBuilder, rest, before, line);
        }
        stringBuilder := stringBuilder + [line, "\t\t"];
        rest := rest[1..];
        if |queue| == 0 {
          stringBuilder := stringBuilder + ["\n"];
          queue := newqueue;
          newqueue := [];
          rest, next := next, [];
        }
      }
    }

    /**
     * The body of `getBFSString`'s loop for one node: take the node at the
     * end of the queue, print its sequent, and put its premises at the front
     * of the next queue, first premise first.
     */
    static method Visit(queue: seq<ProofTree>, newqueue: seq<ProofTree>, ghost rest: seq<ProofSearch.Proof>, ghost next: seq<ProofSearch.Proof>)
      returns (line: string, remaining: seq<ProofTree>, queued: seq<ProofTree>, ghost collected: seq<ProofSearch.Proof>)
      requires 0 < |queue| == |rest| && |newqueue| == |next|
      requires forall k :: 0 <= k < |queue| ==> MirrorAt(queue, rest, k)
      requires forall k :: 0 <= k < |newqueue| ==> MirrorAt(newqueue, next, k)
      ensures line == Text(rest[0].sequent)
      ensures |remaining| == |rest| - 1 && forall k :: 0 <= k < |remaining| ==> MirrorAt(remaining, rest[1..], k)
      ensures collected == next + rest[0].premises && |queued| == |collected|
      ensures forall k :: 0 <= k < |queued| ==> MirrorAt(queued, collected, k)
    {
      MirrorPop(queue, rest, queue[..|queue| - 1], rest[1..]);
      var current := queue[|queue| - 1];
      remaining := queue[..|queue| - 1];
      current.PremiseModels();
      line := Sequents.ToString(current.sequent);
      queued, collected := newqueue, next;
      if current.premiseOne != null {
        MirrorPush(queued, collected, current.premiseOne);
        queued := [current.premiseOne] + queued;
        collected := collected + [current.premiseOne.Model()];
      }
      if current.premiseTwo != null {
        MirrorPush(queued, collected, current.premiseTwo);
        queued := [current.premiseTwo] + queued;
        collected := collected + [current.premiseTwo.Model()];
      }
    }

    /** The model's premises are the models of the premises, first premise first. */
    lemma PremiseModels()
      requires Valid()
      ensures premiseOne != null ==> premiseOne.Valid()
      ensures premiseTwo != null ==> premiseTwo.Valid()
      ensures Model().sequent == sequent
      ensures Model().premises
        == (if premiseOne == null then [] else [premiseOne.Model()]) + (if premiseTwo == null then [] else [premiseTwo.Model()])
    {
    }

    /**
     * `solve`: find the next compound formula; with none, close the branch
     * with an axiom, otherwise decompose the formula. On success the tree
     * grown below this node is exactly the proof `ProofSearch.Solve` finds;
     * on failure the error is the one it reports.
     */
    method Solve() returns (r: Outcome<ProofSearch.SolveError>)
      requires IsLeaf() && Repr == {this}
      modifies this
      ensures r.Pass? <==> ProofSearch.Solve(sequent).Ok?
      ensures r.Pass? ==> Valid() && fresh(Repr - {this}) && Model() == ProofSearch.Solve(sequent).value
      ensures r.Fail? ==> r.error == ProofSearch.Solve(sequent).error
      decreases SequentConnectives(sequent), 4
    {
      HasConnectiveSpec(sequent);
      var nextFormula := HasConnectiveFormula(sequent);
      match nextFormula
      case Err(e) => r := Fail(ProofSearch.RuleFailed(e));
      case Ok(NoConnective) => r := CloseWithAxiom();
      case Ok(InAntecedent(i)) => r := Decompose(i, true, ProofSearch.Decompose(sequent, i, true));
      case Ok(InSuccedent(j)) => r := Decompose(j, false, ProofSearch.Decompose(sequent, j, false));
    }

    /**
     * The "no" case of `solve`: find a variable on both sides, move its
     * antecedent copy to the end of the antecedent and its succedent copy to
     * the end of the succedent, then weaken the rest away with `deriveAxiom`.
     */
    method CloseWithAxiom() returns (r: Outcome<ProofSearch.SolveError>)
      requires IsLeaf() && Repr == {this}
      modifies this
      ensures r.Pass? <==> ProofSearch.AxiomProof(sequent).Ok?
      ensures r.Pass? ==> Valid() && fresh(Repr - {this}) && Model() == ProofSearch.AxiomProof(sequent).value
      ensures r.Fail? ==> r.error == ProofSearch.AxiomProof(sequent).error
    {
      var axiomVariablePos := FindAxiom(sequent);
      if axiomVariablePos.Err? {
        return Fail(ProofSearch.RuleFailed(axiomVariablePos.error));
      }
      if axiomVariablePos.value.None? {
        return Fail(ProofSearch.NoProof(sequent));
      }
      var (i, j) := axiomVariablePos.value.value;
      ProofSearch.PairInRange(sequent);
      MovesPlan(sequent, i, true, false);
      ghost var inAntecedent := Moves(sequent, i, true, false);
      ProofSearch.MoveInsideCedents(sequent, i, true);
      MovesPlan(inAntecedent.last, j, false, false);
      ghost var inSuccedent := Moves(inAntecedent.last, j, false, false);
      var afterSuccedent, chain := MoveBoth(this, i, j, inAntecedent, inSuccedent);
      WeakenIsPlan(inSuccedent.last);
      ghost var weakened := ProofSearch.Weaken(inSuccedent.last);
      var o := CloseChain(chain, inAntecedent.steps + inSuccedent.steps, afterSuccedent, weakened.steps, weakened.last);
      if o.Fail? {
        return Fail(ProofSearch.RuleFailed(o.error));
      }
      return Pass;
    }

    /**
     * The "antecedent" and "succedent" cases of `solve`: move the formula at
     * `idx` to index 0, apply the rule `RuleFinder` picks for it, and solve
     * the first premise, then the second.
     */
    method Decompose(idx: nat, inAntecedent: bool, ghost target: Result<ProofSearch.Proof, ProofSearch.SolveError>)
      returns (r: Outcome<ProofSearch.SolveError>)
      requires IsLeaf() && Repr == {this}
      requires idx < |Cedent(sequent, inAntecedent)| && IsCompound(Cedent(sequent, inAntecedent)[idx])
      requires target == ProofSearch.Decompose(sequent, idx, inAntecedent)
      modifies this
      ensures r.Pass? <==> target.Ok?
      ensures r.Pass? ==> Valid() && fresh(Repr - {this}) && Model() == target.value
      ensures r.Fail? ==> r.error == target.error
      decreases SequentConnectives(sequent), 3
    {
      MovesPlan(sequent, idx, inAntecedent, true);
      ghost var moved := Moves(sequent, idx, inAntecedent, true);
      ghost var s := sequent;
      var usableProof, chain := MoveFormula(this, idx, inAntecedent, true, moved.steps, moved.last);
      r := Expand(chain, s, idx, inAntecedent, moved, usableProof, target);
    }

    /**
     * The end of `solve`: `rule` is recorded, and its premises become this
     * node's premises, each solved as soon as it is attached.
     */
    method ApplyRule(rule: Rule, nextSequents: seq<Sequent>) returns (r: Outcome<ProofSearch.SolveError>)
      requires IsLeaf() && Repr == {this}
      requires 1 <= |nextSequents| <= 2 && AllSmaller(nextSequents, SequentConnectives(sequent))
      modifies this
      ensures r.Pass? <==> ProofSearch.Apply(sequent, rule, nextSequents).Ok?
      ensures r.Pass? ==>
                Valid() && fresh(Repr - {this}) && Model() == ProofSearch.Apply(sequent, rule, nextSequents).value
      ensures r.Fail? ==> r.error == ProofSearch.Apply(sequent, rule, nextSequents).error
      decreases SequentConnectives(sequent), 0
    {
      ProofSearch.ApplyResult(sequent, rule, nextSequents);
      var first, second: ProofTree?;
      first, r := SolvedNode(nextSequents[0]);
      second := null;
      if r.Pass? && |nextSequents| == 2 {
        var node;
        node, r := SolvedNode(nextSequents[1]);
        second := node;
      }
      if r.Pass? {
        Adopt(rule, first, second);
      }
    }

    /** Links solved trees below this leaf as the premises of `rule`. */
    method Adopt(rule: Rule, first: ProofTree, second: ProofTree?)
      requires IsLeaf() && Repr == {this}
      requires first.Valid() && this !in first.Repr
      requires second != null ==> second.Valid() && this !in second.Repr && first.Repr !! second.Repr
      modifies this
      ensures Valid() && Repr == {this} + first.Repr + (if second == null then {} else second.Repr)
      ensures Model() == ProofSearch.Proof(sequent, Some(rule),
        [old(first.Model())] + (if second == null then [] else [old(second.Model())]))
    {
      premiseOne := first;
      premiseTwo := second;
      usedRule := Some(rule);
      Repr := {this} + first.Repr + (if second == null then {} else second.Repr);
    }

    /** `new ProofTree(s)` followed by `solve` on the new node. */
    static method SolvedNode(s: Sequent) returns (node: ProofTree, r: Outcome<ProofSearch.SolveError>)
      ensures fresh(node) && node.sequent == s
      ensures r.Pass? <==> ProofSearch.Solve(s).Ok?
      ensures r.Pass? ==> node.Valid() && fresh(node.Repr) && node.Model() == ProofSearch.Solve(s).value
      ensures r.Fail? ==> r.error == ProofSearch.Solve(s).error
      decreases SequentConnectives(s), 5
    {
      node := new ProofTree(s);
      r := node.Solve();
    }
  }

  // ---------------------------------------------------------------------
  // Chains of single-premise nodes
  // ---------------------------------------------------------------------

  /** The `k`-th node of a queue is a valid tree standing for the `k`-th proof counted from the end. */
  ghost predicate MirrorAt(nodes: seq<ProofTree>, models: seq<ProofSearch.Proof>, k: nat)
    requires k < |nodes| == |models|
    reads nodes[k], nodes[k].Repr
  {
    nodes[k].Valid() && nodes[k].Model() == models[|models| - 1 - k]
  }

  /** Taking the last node of a queue takes the first of the proofs it stands for. */
  lemma MirrorPop(nodes: seq<ProofTree>, models: seq<ProofSearch.Proof>, shorter: seq<ProofTree>, fewer: seq<ProofSearch.Proof>)
    requires 0 < |nodes| == |models|
    requires forall k :: 0 <= k < |nodes| ==> MirrorAt(nodes, models, k)
    requires shorter == nodes[..|nodes| - 1] && fewer == models[1..]
    ensures nodes[|nodes| - 1].Valid() && nodes[|nodes| - 1].Model() == models[0]
    ensures forall k :: 0 <= k < |shorter| ==> MirrorAt(shorter, fewer, k)
  {
    assert MirrorAt(nodes, models, |nodes| - 1);
    forall k | 0 <= k < |shorter|
      ensures MirrorAt(shorter, fewer, k)
    {
      assert MirrorAt(nodes, models, k);
    }
  }

  /** Putting a node at the front of a queue adds its proof at the end. */
  lemma MirrorPush(nodes: seq<ProofTree>, models: seq<ProofSearch.Proof>, node: ProofTree)
    requires |nodes| == |models| && node.Valid()
    requires forall k :: 0 <= k < |nodes| ==> MirrorAt(nodes, models, k)
    ensures forall k :: 0 <= k < |nodes| + 1 ==> MirrorAt([node] + nodes, models + [node.Model()], k)
  {
    forall k | 0 <= k < |nodes| + 1
      ensures MirrorAt([node] + nodes, models + [node.Model()], k)
    {
      if k > 0 {
        assert MirrorAt(nodes, models, k - 1);
      }
    }
  }

  /** Each node of `chain` but the last holds the matching step and has the next node as its only premise. */
  ghost predicate Linked(chain: seq<ProofTree>, steps: seq<ProofSearch.Step>)
    reads Above(chain)`premiseOne, Above(chain)`premiseTwo, Above(chain)`usedRule
  {
    |chain| == |steps| + 1 && forall k :: 0 <= k < |steps| ==> LinkedAt(chain, steps, k)
  }

  /** The nodes of `chain` above its last one. */
  function Above(chain: seq<ProofTree>): seq<ProofTree> {
    if |chain| == 0 then [] else chain[..|chain| - 1]
  }

  /** Node `k` of `chain` holds step `k` and has node `k + 1` as its only premise. */
  ghost predicate LinkedAt(chain: seq<ProofTree>, steps: seq<ProofSearch.Step>, k: nat)
    requires k < |steps| && |chain| == |steps| + 1
    reads chain[k..k + 1]`premiseOne, chain[k..k + 1]`premiseTwo, chain[k..k + 1]`usedRule
  {
    chain[k].sequent == steps[k].sequent && chain[k].usedRule == Some(steps[k].rule)
    && chain[k].premiseOne == chain[k + 1] && chain[k].premiseTwo == null
  }

  /** No node occurs twice in `chain`. */
  ghost predicate Distinct(chain: seq<ProofTree>) {
    forall a, b :: 0 <= a < b < |chain| ==> Apart(chain, a, b)
  }

  ghost predicate Apart(chain: seq<ProofTree>, a: nat, b: nat)
    requires a < |chain| && b < |chain|
  {
    chain[a] != chain[b]
  }

  /** The last node of a distinct chain is none of the ones before it. */
  lemma LastApart(chain: seq<ProofTree>)
    requires Distinct(chain) && |chain| > 0
    ensures chain[|chain| - 1] !in chain[..|chain| - 1]
  {
    forall j | 0 <= j < |chain| - 1
      ensures chain[j] != chain[|chain| - 1]
    {
      assert Apart(chain, j, |chain| - 1);
    }
  }

  /** The nodes of `chain` from index `i` on. */
  ghost function Nodes(chain: seq<ProofTree>, i: nat): set<object> {
    set j | i <= j < |chain| :: chain[j]
  }

  /** A chain grows by one node below its last one. */
  lemma LinkedExtend(chain: seq<ProofTree>, steps: seq<ProofSearch.Step>, step: ProofSearch.Step, next: ProofTree)
    requires Linked(chain, steps)
    requires var last := chain[|chain| - 1];
      last.sequent == step.sequent && last.usedRule == Some(step.rule)
      && last.premiseOne == next && last.premiseTwo == null
    ensures Linked(chain + [next], steps + [step])
  {
    var c := chain + [next];
    var t := steps + [step];
    forall k | 0 <= k < |t|
      ensures LinkedAt(c, t, k)
    {
      if k < |steps| {
        assert LinkedAt(chain, steps, k);
        assert c[k] == chain[k] && c[k + 1] == chain[k + 1] && t[k] == steps[k];
      }
    }
  }

  /** How the slices of a sequence at `k` and `k + 1` relate. */
  lemma Slices<T>(s: seq<T>, k: nat)
    requires k < |s|
    ensures s[k..][0] == s[k] && s[k + 1..] == s[k..][1..] && s[..k + 1] == s[..k] + [s[k]]
  {
  }

  /** A fresh node keeps a chain of older nodes distinct. */
  lemma DistinctExtend(chain: seq<ProofTree>, next: ProofTree)
    requires Distinct(chain) && next !in chain
    ensures Distinct(chain + [next])
  {
    var c := chain + [next];
    forall a, b | 0 <= a < b < |c|
      ensures Apart(c, a, b)
    {
      if b < |chain| {
        assert Apart(chain, a, b);
      }
    }
  }

  /** The moves `moveFormula` makes, towards index 0 or towards the end of the cedent. */
  function Moves(s: Sequent, idx: nat, inAntecedent: bool, moveToOutside: bool): ProofSearch.Moved
    requires idx < |Cedent(s, inAntecedent)|
  {
    if moveToOutside then ProofSearch.MoveOutside(s, idx, inAntecedent)
    else ProofSearch.MoveInside(s, idx, inAntecedent)
  }

  /**
   * A chain under construction: the nodes above `current` are linked by
   * `done`, no node occurs twice, and `current`, the last node, is a leaf
   * that owns only itself.
   */
  ghost predicate Built(chain: seq<ProofTree>, done: seq<ProofSearch.Step>, current: ProofTree)
    reads chain
  {
    |chain| == |done| + 1 && chain[|done|] == current
    && Linked(chain, done) && Distinct(chain)
    && current.IsLeaf() && current.Repr == {current}
  }

  /**
   * One step of `moveFormula` and `deriveAxiom`: the last node of the chain
   * records `rule` and gets a new leaf for the rule's premise as its only
   * premise.
   */
  method Grow(current: ProofTree, ghost chain: seq<ProofTree>, ghost done: seq<ProofSearch.Step>,
              ghost step: ProofSearch.Step, rule: Rule, premise: Sequent)
    returns (next: ProofTree)
    requires Built(chain, done, current) && step == ProofSearch.Step(current.sequent, rule)
    modifies current
    ensures fresh(next) && next.sequent == premise
    ensures Built(chain + [next], done + [step], next) && (chain + [next])[0] == chain[0]
  {
    LastApart(chain);
    next := new ProofTree(premise);
    current.premiseOne := next;
    current.usedRule := Some(rule);
    LinkedExtend(chain, done, step, next);
    DistinctExtend(chain, next);
  }

  /** The number of exchanges `moveFormula` makes. */
  function MoveCount(s: Sequent, idx: nat, inAntecedent: bool, moveToOutside: bool): nat
    requires idx < |Cedent(s, inAntecedent)|
  {
    if moveToOutside then idx else |Cedent(s, inAntecedent)| - 1 - idx
  }

  /** The moves form a chain from `s`, one exchange per position the formula travels. */
  lemma MovesShape(s: Sequent, idx: nat, inAntecedent: bool, moveToOutside: bool)
    requires idx < |Cedent(s, inAntecedent)|
    ensures var m := Moves(s, idx, inAntecedent, moveToOutside);
      |m.steps| == MoveCount(s, idx, inAntecedent, moveToOutside) && ProofSearch.Leads(s, m.steps, m.last)
  {
    if moveToOutside {
      ProofSearch.MoveOutsideLeads(s, idx, inAntecedent);
    } else {
      ProofSearch.MoveInsideLeads(s, idx, inAntecedent);
    }
  }

  /** Exchange `k` of the moves: its rule and the premise it gives. */
  lemma MovesAt(s: Sequent, idx: nat, inAntecedent: bool, moveToOutside: bool, k: nat)
    requires idx < |Cedent(s, inAntecedent)| && k < MoveCount(s, idx, inAntecedent, moveToOutside)
    ensures var m := Moves(s, idx, inAntecedent, moveToOutside);
      k < |m.steps|
      && m.steps[k].rule == ExchangeRule(inAntecedent, if moveToOutside then idx - 1 - k else idx + k)
      && Premises(m.steps[k].rule, m.steps[k].sequent) == Ok([ProofSearch.Top(m.steps[k + 1..], m.last)])
  {
    var m := Moves(s, idx, inAntecedent, moveToOutside);
    MovesShape(s, idx, inAntecedent, moveToOutside);
    if moveToOutside {
      ProofSearch.MoveOutsideRule(s, idx, inAntecedent, k);
    } else {
      ProofSearch.MoveInsideRule(s, idx, inAntecedent, k);
    }
    ProofSearch.LeadsAt(s, m.steps, m.last, k);
  }

  /** The position exchanged by step `k` when the formula starts at `idx`. */
  function Position(idx: nat, moveToOutside: bool, k: nat): int {
    if moveToOutside then idx - 1 - k else idx + k
  }

  /**
   * The steps `moveFormula` is to take from `s`: one exchange per position
   * the formula travels, each giving the sequent of the next step (or
   * `last` after the final one).
   */
  ghost predicate Plan(s: Sequent, idx: nat, inAntecedent: bool, moveToOutside: bool,
                       steps: seq<ProofSearch.Step>, last: Sequent)
  {
    idx < |Cedent(s, inAntecedent)|
    && |steps| == MoveCount(s, idx, inAntecedent, moveToOutside)
    && ProofSearch.Top(steps, last) == s
    && forall k :: 0 <= k < |steps| ==> PlanAt(idx, inAntecedent, moveToOutside, steps, last, k)
  }

  /** Step `k` of a plan exchanges the formula's current position with its neighbour and gives the next sequent. */
  ghost predicate PlanAt(idx: nat, inAntecedent: bool, moveToOutside: bool,
                         steps: seq<ProofSearch.Step>, last: Sequent, k: nat)
    requires k < |steps|
  {
    0 <= Position(idx, moveToOutside, k)
    && Position(idx, moveToOutside, k) + 1 < |Cedent(steps[k].sequent, inAntecedent)|
    && steps[k].rule == ExchangeRule(inAntecedent, Position(idx, moveToOutside, k))
    && Exchanged(steps[k].sequent, inAntecedent, Position(idx, moveToOutside, k))
       == ProofSearch.Top(steps[k + 1..], last)
  }

  /** The moves of ProofSearch are the plan `moveFormula` follows. */
  lemma MovesPlan(s: Sequent, idx: nat, inAntecedent: bool, moveToOutside: bool)
    requires idx < |Cedent(s, inAntecedent)|
    ensures var m := Moves(s, idx, inAntecedent, moveToOutside);
      Plan(s, idx, inAntecedent, moveToOutside, m.steps, m.last)
  {
    var m := Moves(s, idx, inAntecedent, moveToOutside);
    MovesShape(s, idx, inAntecedent, moveToOutside);
    ProofSearch.LeadsTop(s, m.steps, m.last);
    forall k | 0 <= k < |m.steps|
      ensures PlanAt(idx, inAntecedent, moveToOutside, m.steps, m.last, k)
    {
      MovesAt(s, idx, inAntecedent, moveToOutside, k);
      ExchangedPremise(m.steps[k].sequent, inAntecedent, Position(idx, moveToOutside, k));
      var t := Exchanged(m.steps[k].sequent, inAntecedent, Position(idx, moveToOutside, k));
      assert [t][0] == t;
    }
  }

  /** Step `k` of a plan, taken from the sequent it starts at. */
  lemma PlanStep(s: Sequent, idx: nat, inAntecedent: bool, moveToOutside: bool,
                 steps: seq<ProofSearch.Step>, last: Sequent, k: nat, current: Sequent)
    requires Plan(s, idx, inAntecedent, moveToOutside, steps, last)
    requires k < |steps| && current == ProofSearch.Top(steps[k..], last)
    ensures 0 <= Position(idx, moveToOutside, k)
    ensures Position(idx, moveToOutside, k) + 1 < |Cedent(current, inAntecedent)|
    ensures steps[k] == ProofSearch.Step(current, ExchangeRule(inAntecedent, Position(idx, moveToOutside, k)))
    ensures Exchanged(current, inAntecedent, Position(idx, moveToOutside, k)) == ProofSearch.Top(steps[k + 1..], last)
    ensures steps[..k + 1] == steps[..k] + [steps[k]]
  {
    assert PlanAt(idx, inAntecedent, moveToOutside, steps, last, k);
    Slices(steps, k);
  }

  /**
   * `moveFormula`: below the leaf `node`, one new node per exchange until the
   * formula at `formulaIndex` is at index 0 (outside) or last (inside),
   * following `steps`; the last node is returned, `chain` lists the nodes
   * from `node` down.
   */
  method MoveFormula(node: ProofTree, formulaIndex: nat, inAntecedent: bool, moveToOutside: bool,
                     ghost steps: seq<ProofSearch.Step>, ghost final: Sequent)
    returns (last: ProofTree, ghost chain: seq<ProofTree>)
    requires Plan(node.sequent, formulaIndex, inAntecedent, moveToOutside, steps, final)
    requires node.IsLeaf() && node.Repr == {node}
    modifies node
    ensures Built(chain, steps, last) && chain[0] == node && last.sequent == final && last.Valid()
    ensures forall j :: 0 < j < |chain| ==> fresh(chain[j])
  {
    var relativeSwapPosition := if moveToOutside then -1 else 0;
    var formulaShift := if moveToOutside then -1 else 1;
    ghost var k: nat := 0;
    var idx: int := formulaIndex;
    var current := node;
    chain := [node];
    assert steps[0..] == steps && steps[..0] == [];
    while if moveToOutside then idx > 0 else idx < |Cedent(node.sequent, inAntecedent)| - 1
      invariant k <= |steps| && idx + relativeSwapPosition == Position(formulaIndex, moveToOutside, k)
      invariant current.sequent == ProofSearch.Top(steps[k..], final)
      invariant Built(chain, steps[..k], current) && chain[0] == node
      invariant forall j :: 0 < j < |chain| ==> fresh(chain[j])
      decreases |steps| - k
    {
      PlanStep(node.sequent, formulaIndex, inAntecedent, moveToOutside, steps, final, k, current.sequent);
      var rule := ExchangeRule(inAntecedent, idx + relativeSwapPosition);
      var next := Grow(current, chain, steps[..k], steps[k], rule,
                       Exchanged(current.sequent, inAntecedent, idx + relativeSwapPosition));
      chain := chain + [next];
      current := next;
      k := k + 1;
      idx := idx + formulaShift;
    }
    assert steps[..k] == steps && steps[k..] == [];
    last := current;
  }

  /**
   * Step `k` of the weakenings `deriveAxiom` makes: index 0 of the
   * antecedent is dropped while it has more than one formula, then index 0
   * of the succedent; the result is the next step's sequent.
   */
  ghost predicate WeakenAt(steps: seq<ProofSearch.Step>, last: Sequent, k: nat)
    requires k < |steps|
  {
    var s := steps[k].sequent;
    var left := |s.antecedent| > 1;
    (left || |s.succedent| > 1)
    && steps[k].rule == (if left then LeftWeakening else RightWeakening)
    && Weakened(s, left) == ProofSearch.Top(steps[k + 1..], last)
  }

  /** The weakenings from `s` down to `last`, which has at most one formula on each side. */
  ghost predicate WeakenPlan(s: Sequent, steps: seq<ProofSearch.Step>, last: Sequent) {
    ProofSearch.Top(steps, last) == s && |last.antecedent| <= 1 && |last.succedent| <= 1
    && forall k :: 0 <= k < |steps| ==> WeakenAt(steps, last, k)
  }

  /** The weakening chain of ProofSearch is the plan `deriveAxiom` follows. */
  lemma {:induction false} WeakenIsPlan(s: Sequent)
    ensures var w := ProofSearch.Weaken(s); WeakenPlan(s, w.steps, w.last)
    decreases |s.antecedent| + |s.succedent|
  {
    var w := ProofSearch.Weaken(s);
    if |s.antecedent| > 1 || |s.succedent| > 1 {
      var left := |s.antecedent| > 1;
      var t := Weakened(s, left);
      assert t == if left then Sequent(s.antecedent[1..], s.succedent) else Sequent(s.antecedent, s.succedent[1..]);
      var n := ProofSearch.Weaken(t);
      WeakenIsPlan(t);
      assert w.steps == [ProofSearch.Step(s, if left then LeftWeakening else RightWeakening)] + n.steps;
      assert w.last == n.last;
      forall k | 0 <= k < |w.steps|
        ensures WeakenAt(w.steps, w.last, k)
      {
        assert w.steps[k + 1..] == n.steps[k..];
        if k > 0 {
          assert WeakenAt(n.steps, n.last, k - 1);
          assert w.steps[k] == n.steps[k - 1];
        } else {
          assert n.steps[0..] == n.steps;
        }
      }
    } else {
      assert w.steps == [] && w.last == s;
    }
  }

  /** Past its last step a chain is at its last sequent. */
  lemma TopOfNone(steps: seq<ProofSearch.Step>, last: Sequent)
    ensures ProofSearch.Top(steps[|steps|..], last) == last
  {
    assert steps[|steps|..] == [];
  }

  /** Before its end a weakening plan still has more than one formula on some side. */
  lemma WeakenPending(s: Sequent, steps: seq<ProofSearch.Step>, last: Sequent, k: nat)
    requires WeakenPlan(s, steps, last) && k <= |steps|
    ensures var current := ProofSearch.Top(steps[k..], last);
      k < |steps| ==> |current.antecedent| > 1 || |current.succedent| > 1
  {
    if k < |steps| {
      assert WeakenAt(steps, last, k);
      assert steps[k..][0] == steps[k];
    }
  }

  /** A weakening step is due while either side has more than one formula. */
  lemma WeakenStep(s: Sequent, steps: seq<ProofSearch.Step>, last: Sequent, k: nat, current: Sequent)
    requires WeakenPlan(s, steps, last)
    requires k <= |steps| && current == ProofSearch.Top(steps[k..], last)
    requires |current.antecedent| > 1 || |current.succedent| > 1
    ensures k < |steps|
    ensures var left := |current.antecedent| > 1;
      steps[k] == ProofSearch.Step(current, if left then LeftWeakening else RightWeakening)
      && Weakened(current, left) == ProofSearch.Top(steps[k + 1..], last)
    ensures steps[..k + 1] == steps[..k] + [steps[k]]
  {
    TopOfNone(steps, last);
    assert WeakenAt(steps, last, k);
    Slices(steps, k);
  }

  /** Once both sides are down to one formula the plan is done. */
  lemma WeakenEnd(s: Sequent, steps: seq<ProofSearch.Step>, last: Sequent, k: nat, current: Sequent)
    requires WeakenPlan(s, steps, last)
    requires k <= |steps| && current == ProofSearch.Top(steps[k..], last)
    requires |current.antecedent| <= 1 && |current.succedent| <= 1
    ensures k == |steps| && current == last && steps[..k] == steps
  {
    WeakenPending(s, steps, last, k);
    TopOfNone(steps, last);
    assert steps[..|steps|] == steps;
  }

  /**
   * The loops of `deriveAxiom`: weaken index 0 of the antecedent, then of
   * the succedent, one new node per weakening, until one formula is left on
   * each side.
   */
  method Weaken(node: ProofTree, ghost steps: seq<ProofSearch.Step>, ghost final: Sequent)
    returns (ghost chain: seq<ProofTree>)
    requires WeakenPlan(node.sequent, steps, final)
    requires node.IsLeaf() && node.Repr == {node}
    modifies node
    ensures |chain| > 0 && Built(chain, steps, chain[|chain| - 1]) && chain[0] == node
    ensures chain[|chain| - 1].sequent == final && chain[|chain| - 1].Valid()
    ensures forall j :: 0 < j < |chain| ==> fresh(chain[j])
  {
    chain := [node];
    assert steps[0..] == steps && steps[..0] == [];
    var current;
    ghost var k;
    current, chain, k := WeakenSide(node, steps, final, node, [node], 0, true);
    current, chain, k := WeakenSide(node, steps, final, current, chain, k, false);
    WeakenEnd(node.sequent, steps, final, k, current.sequent);
  }

  /**
   * One loop of `deriveAxiom`: while the chosen side has more than one
   * formula, its index 0 is weakened away in a new node below the current
   * one.
   */
  method WeakenSide(node: ProofTree, ghost steps: seq<ProofSearch.Step>, ghost final: Sequent,
                    current: ProofTree, ghost chain: seq<ProofTree>, ghost k: nat, left: bool)
    returns (last: ProofTree, ghost grown: seq<ProofTree>, ghost n: nat)
    requires WeakenPlan(node.sequent, steps, final)
    requires !left ==> |current.sequent.antecedent| <= 1
    requires k <= |steps| && current.sequent == ProofSearch.Top(steps[k..], final)
    requires Built(chain, steps[..k], current) && chain[0] == node
    modifies current
    ensures n <= |steps| && last.sequent == ProofSearch.Top(steps[n..], final)
    ensures Built(grown, steps[..n], last) && grown[0] == node
    ensures |Cedent(last.sequent, left)| <= 1 && (!left ==> |last.sequent.antecedent| <= 1)
    ensures |chain| <= |grown| && forall j :: 0 <= j < |chain| ==> grown[j] == chain[j]
    ensures forall j :: |chain| <= j < |grown| ==> fresh(grown[j])
  {
    last, grown, n := current, chain, k;
    while |Cedent(last.sequent, left)| > 1
      invariant !left ==> |last.sequent.antecedent| <= 1
      invariant n <= |steps| && last.sequent == ProofSearch.Top(steps[n..], final)
      invariant Built(grown, steps[..n], last) && grown[0] == node
      invariant |chain| <= |grown| && forall j :: 0 <= j < |chain| ==> grown[j] == chain[j]
      invariant forall j :: |chain| <= j < |grown| ==> fresh(grown[j])
      invariant last == current || fresh(last)
      decreases |steps| - n
    {
      var next := WeakenOnce(node, steps, final, last, grown, n, left);
      grown := grown + [next];
      last := next;
      n := n + 1;
    }
  }

  /** One weakening on side `left` of the last node of the chain, as step `n` of the plan. */
  method WeakenOnce(node: ProofTree, ghost steps: seq<ProofSearch.Step>, ghost final: Sequent,
                    last: ProofTree, ghost grown: seq<ProofTree>, ghost n: nat, left: bool)
    returns (next: ProofTree)
    requires WeakenPlan(node.sequent, steps, final)
    requires !left ==> |last.sequent.antecedent| <= 1
    requires |Cedent(last.sequent, left)| > 1
    requires n <= |steps| && last.sequent == ProofSearch.Top(steps[n..], final)
    requires Built(grown, steps[..n], last) && grown[0] == node
    modifies last
    ensures fresh(next) && n + 1 <= |steps| && next.sequent == ProofSearch.Top(steps[n + 1..], final)
    ensures Built(grown + [next], steps[..n + 1], next) && (grown + [next])[0] == node
    ensures !left ==> |next.sequent.antecedent| <= 1
  {
    WeakenStep(node.sequent, steps, final, n, last.sequent);
    var rule := if left then LeftWeakening else RightWeakening;
    next := Grow(last, grown, steps[..n], steps[n], rule, Weakened(last.sequent, left));
  }

  /**
   * `deriveAxiom`: refuse a sequent whose first formula on either side is
   * not a variable, leaving the node as it is; otherwise weaken it down to
   * one formula on each side.
   */
  method DeriveAxiom(node: ProofTree, ghost steps: seq<ProofSearch.Step>, ghost final: Sequent)
    returns (o: Outcome<RuleError>, ghost chain: seq<ProofTree>)
    requires WeakenPlan(node.sequent, steps, final)
    requires node.IsLeaf() && node.Repr == {node}
    modifies node
    ensures o.Fail? <==> ProofSearch.DeriveAxiom(node.sequent).Err?
    ensures o.Fail? ==> o.error == ProofSearch.DeriveAxiom(node.sequent).error && chain == [node] && node.IsLeaf()
    ensures o.Pass? ==>
              |chain| > 0 && Built(chain, steps, chain[|chain| - 1]) && chain[0] == node
              && chain[|chain| - 1].sequent == final && chain[|chain| - 1].Valid()
    ensures forall j :: 0 < j < |chain| ==> fresh(chain[j])
  {
    if |node.sequent.antecedent| > 0 && !node.sequent.antecedent[0].Variable? {
      return Fail(NotAVariable(true)), [node];
    }
    if |node.sequent.succedent| > 0 && !node.sequent.succedent[0].Variable? {
      return Fail(NotAVariable(false)), [node];
    }
    chain := Weaken(node, steps, final);
    return Pass, chain;
  }

  /**
   * Two chains, the second starting at the last node of the first and
   * otherwise made of other nodes, form one chain.
   */
  lemma Join(upper: seq<ProofTree>, done: seq<ProofSearch.Step>, lower: seq<ProofTree>, steps: seq<ProofSearch.Step>)
    requires Linked(upper, done) && Distinct(upper) && Linked(lower, steps) && Distinct(lower)
    requires upper[|upper| - 1] == lower[0]
    requires forall a, b :: 0 <= a < |upper| && 0 < b < |lower| ==> upper[a] != lower[b]
    ensures var chain := upper + lower[1..];
      Linked(chain, done + steps) && Distinct(chain)
      && (forall k :: 0 <= k < |upper| ==> chain[k] == upper[k])
      && (forall k :: |done| <= k < |chain| ==> chain[k] == lower[k - |done|])
  {
    var chain := upper + lower[1..];
    var all := done + steps;
    var n := |done|;
    assert forall i :: n <= i < |chain| ==> chain[i] == lower[i - n];
    forall k | 0 <= k < |all|
      ensures LinkedAt(chain, all, k)
    {
      if k < n {
        assert LinkedAt(upper, done, k);
      } else {
        assert LinkedAt(lower, steps, k - n);
      }
    }
    forall a, b | 0 <= a < b < |chain|
      ensures Apart(chain, a, b)
    {
      if b < |upper| {
        assert Apart(upper, a, b);
      } else if a >= n {
        assert Apart(lower, a - n, b - n);
      } else {
        assert chain[b] == lower[b - n];
      }
    }
  }

  /**
   * The moves of the "no" case of `solve`: the antecedent's copy of the
   * variable to the end of the antecedent, then the succedent's copy to the
   * end of the succedent, as one chain of exchanges.
   */
  method MoveBoth(node: ProofTree, i: nat, j: nat, ghost first: ProofSearch.Moved, ghost second: ProofSearch.Moved)
    returns (last: ProofTree, ghost chain: seq<ProofTree>)
    requires Plan(node.sequent, i, true, false, first.steps, first.last)
    requires Plan(first.last, j, false, false, second.steps, second.last)
    requires node.IsLeaf() && node.Repr == {node}
    modifies node
    ensures Built(chain, first.steps + second.steps, last) && chain[0] == node && last.sequent == second.last
    ensures forall k :: 0 < k < |chain| ==> fresh(chain[k])
  {
    var afterAntecedent, chain1 := MoveFormula(node, i, true, false, first.steps, first.last);
    LastNode(chain1);
    ghost var chain2;
    last, chain2 := MoveFormula(afterAntecedent, j, false, false, second.steps, second.last);
    Join(chain1, first.steps, chain2, second.steps);
    chain := chain1 + chain2[1..];
  }

  /**
   * `deriveAxiom` at the last node of a chain of exchanges; on success the
   * first node owns the finished tree, which ends in the axiom `final`.
   */
  method CloseChain(ghost chain: seq<ProofTree>, ghost done: seq<ProofSearch.Step>, last: ProofTree,
                    ghost steps: seq<ProofSearch.Step>, ghost final: Sequent)
    returns (o: Outcome<RuleError>)
    requires Built(chain, done, last) && WeakenPlan(last.sequent, steps, final)
    modifies chain`Repr, last
    ensures o.Fail? <==> ProofSearch.DeriveAxiom(last.sequent).Err?
    ensures o.Fail? ==> o.error == ProofSearch.DeriveAxiom(last.sequent).error
    ensures o.Pass? ==>
              chain[0].Valid() && fresh(chain[0].Repr - Nodes(chain, 0))
              && chain[0].Model() == ProofSearch.Chain(done + steps, ProofSearch.Proof(final, None, []))
  {
    LastApart(chain);
    ghost var weakened;
    o, weakened := DeriveAxiom(last, steps, final);
    if o.Pass? {
      ghost var whole := chain + weakened[1..];
      Join(chain, done, weakened, steps);
      forall x | x in Nodes(whole, 1)
        ensures x in Nodes(chain, 0) || fresh(x)
      {
        var k :| 1 <= k < |whole| && whole[k] == x;
        if k < |chain| {
          assert x == chain[k];
        } else {
          assert x == weakened[k - |done|];
        }
      }
      assert whole[|whole| - 1] == weakened[|weakened| - 1];
      assert whole[|whole| - 1].Model() == ProofSearch.Proof(final, None, []);
      Finish(whole, done + steps);
    }
  }

  /** The last node of a chain is its first, or one of the nodes below the first. */
  lemma LastNode(chain: seq<ProofTree>)
    requires |chain| > 0
    ensures chain[|chain| - 1] == chain[0] || chain[|chain| - 1] in Nodes(chain, 1)
  {
  }

  /**
   * The rest of `decompose` once the formula sits at the front of its side:
   * its rule is read off the last node of the chain and its premises are
   * solved below that node.
   */
  method Expand(ghost chain: seq<ProofTree>, ghost s: Sequent, idx: nat, inAntecedent: bool,
                ghost moved: ProofSearch.Moved, usableProof: ProofTree,
                ghost target: Result<ProofSearch.Proof, ProofSearch.SolveError>)
    returns (r: Outcome<ProofSearch.SolveError>)
    requires idx < |Cedent(s, inAntecedent)| && IsCompound(Cedent(s, inAntecedent)[idx])
    requires moved == ProofSearch.MoveOutside(s, idx, inAntecedent) && target == ProofSearch.Decompose(s, idx, inAntecedent)
    requires Built(chain, moved.steps, usableProof) && usableProof.sequent == moved.last
    modifies chain`Repr, usableProof
    ensures r.Pass? <==> target.Ok?
    ensures r.Pass? ==>
              chain[0].Valid() && fresh(chain[0].Repr - Nodes(chain, 0)) && chain[0].Model() == target.value
    ensures r.Fail? ==> r.error == target.error
    decreases SequentConnectives(s), 2
  {
    ProofSearch.MoveOutsideLeads(s, idx, inAntecedent);
    ProofSearch.MoveOutsideCedents(s, idx, inAntecedent);
    ProofSearch.ExchangesKeep(s, moved.steps, moved.last);
    var nextRule := OutsideRule(usableProof.sequent, inAntecedent).value;
    PropositionalRule(usableProof.sequent, inAntecedent);
    var nextSequents := Premises(nextRule, usableProof.sequent).value;
    ProofSearch.DecomposeApply(s, idx, inAntecedent, moved, nextRule, nextSequents);
    r := Complete(chain, moved.steps, usableProof, nextRule, nextSequents);
  }

  /**
   * The end of `solve` below a chain of exchanges: the rule is applied at
   * the chain's last node and its premises are solved; on success the first
   * node owns the finished tree.
   */
  method Complete(ghost chain: seq<ProofTree>, ghost steps: seq<ProofSearch.Step>, usableProof: ProofTree,
                  rule: Rule, nextSequents: seq<Sequent>)
    returns (r: Outcome<ProofSearch.SolveError>)
    requires Built(chain, steps, usableProof)
    requires 1 <= |nextSequents| <= 2 && AllSmaller(nextSequents, SequentConnectives(usableProof.sequent))
    modifies chain`Repr, usableProof
    ensures r.Pass? <==> ProofSearch.Apply(usableProof.sequent, rule, nextSequents).Ok?
    ensures r.Pass? ==>
              chain[0].Valid() && fresh(chain[0].Repr - Nodes(chain, 0))
              && chain[0].Model() == ProofSearch.Chain(steps, ProofSearch.Apply(usableProof.sequent, rule, nextSequents).value)
    ensures r.Fail? ==> r.error == ProofSearch.Apply(usableProof.sequent, rule, nextSequents).error
    decreases SequentConnectives(usableProof.sequent), 1
  {
    LastApart(chain);
    r := usableProof.ApplyRule(rule, nextSequents);
    if r.Pass? {
      Finish(chain, steps);
    }
  }

  /**
   * Once the tree below the last node of a chain is complete and shares no
   * node with the chain, the first node owns the whole chain and stands for
   * the proof `Chain(steps, ...)` over the last node's proof.
   */
  ghost method Finish(chain: seq<ProofTree>, steps: seq<ProofSearch.Step>)
    requires Linked(chain, steps) && Distinct(chain)
    requires chain[|chain| - 1].Valid() && Nodes(chain, 0) !! (chain[|chain| - 1].Repr - {chain[|chain| - 1]})
    modifies chain`Repr
    ensures chain[0].Valid()
    ensures chain[0].Model() == ProofSearch.Chain(steps, old(chain[|chain| - 1].Model()))
    ensures chain[0].Repr == {chain[0]} + Nodes(chain, 1) + old(chain[|chain| - 1].Repr)
  {
    var n := |chain| - 1;
    forall k | 0 <= k < n
      ensures chain[k] !in chain[n].Repr
    {
      assert Apart(chain, k, n);
      assert chain[k] in Nodes(chain, 0);
    }
    Restore(chain, steps);
    NotBelow(chain, 0);
  }

  /** A node of a distinct chain is not among the nodes below it. */
  lemma NotBelow(chain: seq<ProofTree>, k: nat)
    requires Distinct(chain) && k < |chain|
    ensures chain[k] !in Nodes(chain, k + 1)
    ensures Nodes(chain, k) == {chain[k]} + Nodes(chain, k + 1)
  {
    forall j | k + 1 <= j < |chain|
      ensures chain[k] != chain[j]
    {
      assert Apart(chain, k, j);
    }
  }

  /**
   * Once the tree below the last node of a chain is complete, every node of
   * the chain comes to own the nodes below it, from the bottom up: the
   * chain then stands for the proof `Chain(steps, ...)` over the last
   * node's proof.
   */
  ghost method Restore(chain: seq<ProofTree>, steps: seq<ProofSearch.Step>)
    requires Linked(chain, steps) && Distinct(chain)
    requires chain[|chain| - 1].Valid()
    requires forall k :: 0 <= k < |chain| - 1 ==> chain[k] !in chain[|chain| - 1].Repr
    modifies Above(chain)`Repr
    ensures chain[0].Valid()
    ensures chain[0].Model() == ProofSearch.Chain(steps, chain[|chain| - 1].Model())
    ensures chain[0].Repr == Nodes(chain, 0) + chain[|chain| - 1].Repr
  {
    var n := |chain| - 1;
    var bottom := chain[n];
    var k := n;
    assert steps[n..] == [];
    NotBelow(chain, n);
    while k > 0
      invariant 0 <= k <= n && Linked(chain, steps)
      invariant chain[k].Valid() && chain[k].Model() == ProofSearch.Chain(steps[k..], bottom.Model())
      invariant chain[k].Repr == Nodes(chain, k) + bottom.Repr
    {
      k := k - 1;
      RestoreStep(chain, steps, k, bottom);
    }
  }

  /** Node `k` of a chain comes to own itself and everything node `k + 1` owns. */
  ghost method RestoreStep(chain: seq<ProofTree>, steps: seq<ProofSearch.Step>, k: nat, bottom: ProofTree)
    requires Linked(chain, steps) && Distinct(chain) && k < |steps| && bottom == chain[|steps|] && bottom.Valid()
    requires forall j :: 0 <= j < |steps| ==> chain[j] !in bottom.Repr
    requires chain[k + 1].Valid() && chain[k + 1].Model() == ProofSearch.Chain(steps[k + 1..], bottom.Model())
    requires chain[k + 1].Repr == Nodes(chain, k + 1) + bottom.Repr
    modifies chain[k..k + 1]`Repr
    ensures chain[k].Valid() && chain[k].Model() == ProofSearch.Chain(steps[k..], bottom.Model())
    ensures chain[k].Repr == Nodes(chain, k) + bottom.Repr
  {
    var node := chain[k];
    assert LinkedAt(chain, steps, k);
    NotBelow(chain, k);
    node.Repr := {node} + chain[k + 1].Repr;
    assert steps[k..][1..] == steps[k + 1..];
  }
}
