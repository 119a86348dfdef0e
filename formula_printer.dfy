/**
 * `FormulaPrinter`: readable infix text in which a chain of conjunctions (or of
 * disjunctions) shares one pair of brackets.
 */
module FormulaPrinter {
  import opened Formulas
  import opened TruthValues
  import AstPrinter

  /**
   * `conjunctiveCollector`: the operands of a maximal chain of conjunctions,
   * left to right; any node of another variant is a single operand.
   */
  function ConjOperands(f: Formula): (ops: seq<Formula>)
    ensures |ops| >= 1
    ensures forall i :: 0 <= i < |ops| ==> !ops[i].Conjunction?
    ensures forall i :: 0 <= i < |ops| ==> Size(ops[i]) <= Size(f)
    ensures f.Conjunction? ==> |ops| >= 2 && forall i :: 0 <= i < |ops| ==> Size(ops[i]) < Size(f)
    ensures !f.Conjunction? ==> ops == [f]
  {
    match f
    case Conjunction(l, r) => ConjOperands(l) + ConjOperands(r)
    case _ => [f]
  }

  /** `disjunctiveCollector`, the same for disjunctions. */
  function DisjOperands(f: Formula): (ops: seq<Formula>)
    ensures |ops| >= 1
    ensures forall i :: 0 <= i < |ops| ==> !ops[i].Disjunction?
    ensures forall i :: 0 <= i < |ops| ==> Size(ops[i]) <= Size(f)
    ensures f.Disjunction? ==> |ops| >= 2 && forall i :: 0 <= i < |ops| ==> Size(ops[i]) < Size(f)
    ensures !f.Disjunction? ==> ops == [f]
  {
    match f
    case Disjunction(l, r) => DisjOperands(l) + DisjOperands(r)
    case _ => [f]
  }

  /** The texts joined by " op ". */
  function Join(op: string, parts: seq<string>): string {
    if |parts| == 0 then ""
    else if |parts| == 1 then parts[0]
    else parts[0] + " " + op + " " + Join(op, parts[1..])
  }

  /** `group` with two or more operands: one bracket pair around the joined texts. */
  function Group(op: string, parts: seq<string>): string {
    "(" + Join(op, parts) + ")"
  }

  function Print(f: Formula): string
    decreases Size(f)
  {
    match f
    case Implication(l, r) => Group(AstPrinter.ImplicationSymbol, [Print(l), Print(r)])
    case Conjunction(_, _) =>
      var ops := ConjOperands(f);
      Group(AstPrinter.ConjunctionSymbol, seq(|ops|, i requires 0 <= i < |ops| => Print(ops[i])))
    case Disjunction(_, _) =>
      var ops := DisjOperands(f);
      Group(AstPrinter.DisjunctionSymbol, seq(|ops|, i requires 0 <= i < |ops| => Print(ops[i])))
    case Negation(g) => AstPrinter.NegationSymbol + Print(g)
    case Variable(n) => n
    case Truth => AstPrinter.TruthSymbol
    case Falsity => AstPrinter.FalsitySymbol
  }

  /** `join("")`: the parts concatenated in order. */
  function Concat(parts: seq<string>): string {
    if |parts| == 0 then "" else Concat(parts[..|parts| - 1]) + parts[|parts| - 1]
  }

  lemma ConcatPush(parts: seq<string>, x: string)
    ensures Concat(parts + [x]) == Concat(parts) + x
  {
    assert (parts + [x])[..|parts|] == parts;
  }

  /** `Array.pop`: drops the last element; an empty list stays empty. */
  function Pop(parts: seq<string>): (r: seq<string>)
    ensures |parts| > 0 ==> Concat(parts) == Concat(r) + parts[|parts| - 1]
    ensures |parts| == 0 ==> r == []
  {
    if |parts| == 0 then [] else parts[..|parts| - 1]
  }

  /** What the loop of `group` pushes: each text followed by " ", the operator and " ". */
  function Pieces(op: string, parts: seq<string>): seq<string> {
    if |parts| == 0 then [] else Pieces(op, parts[..|parts| - 1]) + [parts[|parts| - 1], " ", op, " "]
  }

  /**
   * `group`: two or more operand texts are joined by the operator inside one
   * bracket pair, the trailing " op " popped again; a single operand follows
   * the operator directly; with none, the three pops empty the list and only
   * the closing bracket is left.
   */
  method GroupText(op: string, parts: seq<string>) returns (text: string)
    ensures |parts| >= 2 ==> text == Group(op, parts)
    ensures |parts| == 1 ==> text == "(" + op + parts[0] + ")"
    ensures |parts| == 0 ==> text == ")"
  {
    var grouping := ["("];
    if |parts| != 1 {
      var i := 0;
      while i < |parts|
        invariant i <= |parts| && grouping == ["("] + Pieces(op, parts[..i])
      {
        assert parts[..i + 1][..i] == parts[..i];
        grouping := grouping + [parts[i], " ", op, " "];
        i := i + 1;
      }
      assert parts[..i] == parts;
      if |parts| >= 2 {
        PopPieces(op, parts);
      }
      grouping := Pop(Pop(Pop(grouping)));
    } else {
      assert Concat(grouping) == "(";
      ConcatPush(grouping, op);
      grouping := grouping + [op];
      ConcatPush(grouping, parts[0]);
      grouping := grouping + [parts[0]];
    }
    ConcatPush(grouping, ")");
    grouping := grouping + [")"];
    text := Concat(grouping);
  }

  /** Popping the trailing " op " leaves the joined operands in brackets. */
  lemma PopPieces(op: string, parts: seq<string>)
    requires |parts| >= 2
    ensures Concat(Pop(Pop(Pop(["("] + Pieces(op, parts))))) == "(" + Join(op, parts)
  {
    var n := |parts| - 1;
    assert parts[..n + 1][..n] == parts[..n];
    assert parts[..n + 1] == parts;
    var front := ["("] + Pieces(op, parts[..n]);
    var grouping := ["("] + Pieces(op, parts);
    assert grouping == front + [parts[n], " ", op, " "];
    assert Pop(grouping) == front + [parts[n], " ", op];
    assert Pop(Pop(grouping)) == front + [parts[n], " "];
    assert Pop(Pop(Pop(grouping))) == front + [parts[n]];
    PiecesText(op, parts);
  }

  /** The pushed texts, the last " op " popped, read as the joined operands. */
  lemma {:induction false} PiecesText(op: string, parts: seq<string>)
    requires |parts| >= 1
    ensures var n := |parts| - 1;
      Concat(["("] + Pieces(op, parts[..n]) + [parts[n]]) == "(" + Join(op, parts)
    decreases |parts|
  {
    var n := |parts| - 1;
    if n == 0 {
      assert ["("] + Pieces(op, parts[..n]) + [parts[n]] == ["("] + [parts[0]];
      assert Concat(["("] + [parts[0]]) == Concat(["("]) + parts[0];
    } else {
      var q, x := parts[..n], parts[n];
      assert q[..n - 1] == parts[..n - 1];
      var front := ["("] + Pieces(op, q[..n - 1]) + [q[n - 1]];
      calc {
        Concat(["("] + Pieces(op, parts[..n]) + [x]);
        { assert ["("] + Pieces(op, parts[..n]) + [x] == front + [" "] + [op] + [" "] + [x];
          ConcatPush(front, " ");
          ConcatPush(front + [" "], op);
          ConcatPush(front + [" "] + [op], " ");
          ConcatPush(front + [" "] + [op] + [" "], x); }
        Concat(front) + " " + op + " " + x;
        { PiecesText(op, q); }
        "(" + Join(op, q) + " " + op + " " + x;
        { Reassociate("(", Join(op, q), " " + op + " " + x); }
        "(" + (Join(op, q) + " " + op + " " + x);
        { JoinSnoc(op, q, x); assert q + [x] == parts; }
        "(" + Join(op, parts);
      }
    }
  }

  lemma Reassociate(a: string, b: string, c: string)
    ensures a + b + c == a + (b + c)
  {
  }

  lemma {:induction false} JoinSnoc(op: string, parts: seq<string>, x: string)
    requires |parts| >= 1
    ensures Join(op, parts + [x]) == Join(op, parts) + " " + op + " " + x
    decreases |parts|
  {
    if |parts| == 1 {
      assert (parts + [x])[1..] == [x];
    } else {
      assert (parts + [x])[1..] == parts[1..] + [x];
      JoinSnoc(op, parts[1..], x);
    }
  }

  /** The printed operands of a chain, in order. */
  function PrintOperands(ops: seq<Formula>): (parts: seq<string>)
    ensures |parts| == |ops| && forall i :: 0 <= i < |ops| ==> parts[i] == Print(ops[i])
  {
    seq(|ops|, i requires 0 <= i < |ops| => Print(ops[i]))
  }

  lemma ConcatAssociates(xs: seq<Formula>, ys: seq<Formula>, zs: seq<Formula>)
    ensures (xs + ys) + zs == xs + (ys + zs)
  {
  }

  /** A chain prints as its operands' texts inside one bracket pair. */
  lemma ChainPrint(f: Formula)
    ensures f.Conjunction? ==> Print(f) == Group(AstPrinter.ConjunctionSymbol, PrintOperands(ConjOperands(f)))
    ensures f.Disjunction? ==> Print(f) == Group(AstPrinter.DisjunctionSymbol, PrintOperands(DisjOperands(f)))
  {
  }

  predicate AllHold(fs: seq<Formula>, a: string -> bool) {
    forall i :: 0 <= i < |fs| ==> Sem(fs[i], a)
  }

  predicate SomeHolds(fs: seq<Formula>, a: string -> bool) {
    exists i :: 0 <= i < |fs| && Sem(fs[i], a)
  }

  lemma AllHoldConcat(xs: seq<Formula>, ys: seq<Formula>, a: string -> bool)
    ensures AllHold(xs + ys, a) <==> AllHold(xs, a) && AllHold(ys, a)
  {
    if AllHold(xs + ys, a) {
      forall i | 0 <= i < |ys| ensures Sem(ys[i], a) {
        assert (xs + ys)[|xs| + i] == ys[i];
      }
      forall i | 0 <= i < |xs| ensures Sem(xs[i], a) {
        assert (xs + ys)[i] == xs[i];
      }
    }
  }

  lemma SomeHoldsConcat(xs: seq<Formula>, ys: seq<Formula>, a: string -> bool)
    ensures SomeHolds(xs + ys, a) <==> SomeHolds(xs, a) || SomeHolds(ys, a)
  {
    if SomeHolds(xs + ys, a) {
      var i :| 0 <= i < |xs + ys| && Sem((xs + ys)[i], a);
      if i < |xs| { assert xs[i] == (xs + ys)[i]; } else { assert ys[i - |xs|] == (xs + ys)[i]; }
    }
    if SomeHolds(xs, a) {
      var i :| 0 <= i < |xs| && Sem(xs[i], a);
      assert (xs + ys)[i] == xs[i];
    }
    if SomeHolds(ys, a) {
      var i :| 0 <= i < |ys| && Sem(ys[i], a);
      assert (xs + ys)[|xs| + i] == ys[i];
    }
  }

  /** A conjunction holds exactly when every operand of its chain holds. */
  lemma {:induction false} ConjOperandsSem(f: Formula, a: string -> bool)
    ensures Sem(f, a) <==> AllHold(ConjOperands(f), a)
  {
    if f.Conjunction? {
      ConjOperandsSem(f.left, a);
      ConjOperandsSem(f.right, a);
      AllHoldConcat(ConjOperands(f.left), ConjOperands(f.right), a);
    } else {
      assert ConjOperands(f)[0] == f;
    }
  }

  /** A disjunction holds exactly when some operand of its chain holds. */
  lemma {:induction false} DisjOperandsSem(f: Formula, a: string -> bool)
    ensures Sem(f, a) <==> SomeHolds(DisjOperands(f), a)
  {
    if f.Disjunction? {
      DisjOperandsSem(f.left, a);
      DisjOperandsSem(f.right, a);
      SomeHoldsConcat(DisjOperands(f.left), DisjOperands(f.right), a);
    } else {
      assert DisjOperands(f)[0] == f;
    }
  }

  /**
   * Brackets inside a chain of conjunctions are not printed: regrouping the
   * chain does not change the text.
   */
  lemma ConjunctionReassociates(x: Formula, y: Formula, z: Formula)
    ensures Print(Conjunction(Conjunction(x, y), z)) == Print(Conjunction(x, Conjunction(y, z)))
  {
    var left, right := Conjunction(Conjunction(x, y), z), Conjunction(x, Conjunction(y, z));
    assert ConjOperands(left) == ConjOperands(right) by {
      var xs, ys, zs := ConjOperands(x), ConjOperands(y), ConjOperands(z);
      assert ConjOperands(left) == (xs + ys) + zs;
      assert ConjOperands(right) == xs + (ys + zs);
      ConcatAssociates(xs, ys, zs);
    }
    ChainPrint(left);
    ChainPrint(right);
  }

  lemma DisjunctionReassociates(x: Formula, y: Formula, z: Formula)
    ensures Print(Disjunction(Disjunction(x, y), z)) == Print(Disjunction(x, Disjunction(y, z)))
  {
    var left, right := Disjunction(Disjunction(x, y), z), Disjunction(x, Disjunction(y, z));
    assert DisjOperands(left) == DisjOperands(right) by {
      var xs, ys, zs := DisjOperands(x), DisjOperands(y), DisjOperands(z);
      assert DisjOperands(left) == (xs + ys) + zs;
      assert DisjOperands(right) == xs + (ys + zs);
      ConcatAssociates(xs, ys, zs);
    }
    ChainPrint(left);
    ChainPrint(right);
  }

  /** A disjunction inside a conjunction is one operand of the chain and keeps its own brackets. */
  lemma CollectorStops(x: Formula, y: Formula, z: Formula)
    ensures ConjOperands(Conjunction(Disjunction(x, y), z)) == [Disjunction(x, y)] + ConjOperands(z)
    ensures DisjOperands(Disjunction(Conjunction(x, y), z)) == [Conjunction(x, y)] + DisjOperands(z)
  {
  }

  /** A → B prints as "(A → B)". */
  lemma ImplicationExample()
    ensures Print(Implication(Variable("A"), Variable("B"))) == "(A \U{2192} B)"
  {
    assert Join(AstPrinter.ImplicationSymbol, ["A", "B"]) == "A" + " " + AstPrinter.ImplicationSymbol + " " + "B";
  }
}
