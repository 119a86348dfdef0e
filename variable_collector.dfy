/**
 * `VariableCollector`: the variable names of a formula as an insertion-ordered
 * set (a JavaScript `Set`), modelled as a duplicate-free sequence.
 */
module VariableCollector {
  import opened Formulas

  /** `s.add(x)` on an insertion-ordered set. */
  function Add(s: seq<string>, x: string): seq<string> {
    if x in s then s else s + [x]
  }

  /** Adding every element of `ys`, in order, to `s`. */
  function AddAll(s: seq<string>, ys: seq<string>): (r: seq<string>)
    ensures |s| <= |r| && r[..|s|] == s
    decreases |ys|
  {
    if |ys| == 0 then s else Add(AddAll(s, ys[..|ys| - 1]), ys[|ys| - 1])
  }

  predicate Distinct(s: seq<string>) {
    forall i, j :: 0 <= i < j < |s| ==> s[i] != s[j]
  }

  /** The collector's result as a function: left operand's names first, then the new ones from the right. */
  function Variables(f: Formula): seq<string> {
    match f
    case Implication(l, r) => AddAll(Variables(l), Variables(r))
    case Conjunction(l, r) => AddAll(Variables(l), Variables(r))
    case Disjunction(l, r) => AddAll(Variables(l), Variables(r))
    case Negation(g) => Variables(g)
    case Variable(n) => [n]
    case Truth => []
    case Falsity => []
  }

  /**
   * The collector itself: each binary node adds the right operand's names
   * into the left operand's set in a loop.
   */
  method CollectVariables(f: Formula) returns (vars: seq<string>)
    ensures vars == Variables(f)
  {
    match f
    case Implication(l, r) =>
      var left := CollectVariables(l);
      var right := CollectVariables(r);
      vars := AddValues(left, right);
    case Conjunction(l, r) =>
      var left := CollectVariables(l);
      var right := CollectVariables(r);
      vars := AddValues(left, right);
    case Disjunction(l, r) =>
      var left := CollectVariables(l);
      var right := CollectVariables(r);
      vars := AddValues(left, right);
    case Negation(g) => vars := CollectVariables(g);
    case Variable(n) => vars := [n];
    case Truth => vars := [];
    case Falsity => vars := [];
  }

  /** The loop of `visitBinary`: every element of `right` is added to `left`. */
  method AddValues(left: seq<string>, right: seq<string>) returns (s: seq<string>)
    ensures s == AddAll(left, right)
  {
    s := left;
    for k := 0 to |right|
      invariant s == AddAll(left, right[..k])
    {
      assert right[..k + 1][..k] == right[..k];
      if right[k] !in s {
        s := s + [right[k]];
      }
    }
    assert right[..|right|] == right;
  }

  lemma {:induction false} AddAllContents(s: seq<string>, ys: seq<string>)
    ensures (set x | x in AddAll(s, ys)) == (set x | x in s) + (set y | y in ys)
    ensures Distinct(s) ==> Distinct(AddAll(s, ys))
    decreases |ys|
  {
    if |ys| > 0 {
      var ys' := ys[..|ys| - 1];
      var x := ys[|ys| - 1];
      AddAllContents(s, ys');
      assert ys == ys' + [x];
      assert (set y | y in ys) == (set y | y in ys') + {x};
      var t := AddAll(s, ys');
      assert (set z | z in Add(t, x)) == (set z | z in t) + {x};
    }
  }

  /**
   * The collector's result lists exactly the variables that occur in `f`,
   * each name once, with the left operand's names first.
   */
  lemma {:induction false} VariablesCorrect(f: Formula)
    ensures (set x | x in Variables(f)) == VarSet(f)
    ensures Distinct(Variables(f))
    ensures f.Implication? || f.Conjunction? || f.Disjunction? ==>
      |Variables(f.left)| <= |Variables(f)| && Variables(f)[..|Variables(f.left)|] == Variables(f.left)
  {
    match f
    case Implication(l, r) => VariablesCorrect(l); VariablesCorrect(r); AddAllContents(Variables(l), Variables(r));
    case Conjunction(l, r) => VariablesCorrect(l); VariablesCorrect(r); AddAllContents(Variables(l), Variables(r));
    case Disjunction(l, r) => VariablesCorrect(l); VariablesCorrect(r); AddAllContents(Variables(l), Variables(r));
    case Negation(g) => VariablesCorrect(g);
    case Variable(n) =>
    case Truth =>
    case Falsity =>
  }

  lemma VariablesIn(f: Formula, n: string)
    ensures n in Variables(f) <==> n in VarSet(f)
  {
    VariablesCorrect(f);
    assert n in Variables(f) <==> n in (set x | x in Variables(f));
  }
}
