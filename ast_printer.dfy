/** `ASTPrinter`: the fully bracketed prefix form of a formula. */
module AstPrinter {
  import opened Formulas

  const ImplicationSymbol: string := "\U{2192}"
  const ConjunctionSymbol: string := "\U{2227}"
  const DisjunctionSymbol: string := "\U{2228}"
  const NegationSymbol: string := "\U{00AC}"
  const TruthSymbol: string := "\U{22A4}"
  const FalsitySymbol: string := "\U{22A5}"

  /** `group`: "(" then the operator, then a space before each operand's text, then ")". */
  function Group(op: string, operands: seq<string>): string {
    "(" + op + Spaced(operands) + ")"
  }

  function Spaced(operands: seq<string>): string {
    if |operands| == 0 then "" else " " + operands[0] + Spaced(operands[1..])
  }

  /** The loop of `group`: the operands are pushed one by one, each after a space. */
  method GroupText(op: string, operands: seq<string>) returns (text: string)
    ensures text == Group(op, operands)
  {
    text := "(" + op;
    var i := 0;
    while i < |operands|
      invariant i <= |operands| && text == "(" + op + Spaced(operands[..i])
    {
      assert operands[..i + 1] == operands[..i] + [operands[i]];
      SpacedSnoc(operands[..i], operands[i]);
      text := text + " " + operands[i];
      i := i + 1;
    }
    assert operands[..i] == operands;
    text := text + ")";
  }

  lemma {:induction false} SpacedSnoc(xs: seq<string>, x: string)
    ensures Spaced(xs + [x]) == Spaced(xs) + " " + x
    decreases |xs|
  {
    if |xs| == 0 {
      assert xs + [x] == [x];
    } else {
      assert (xs + [x])[1..] == xs[1..] + [x];
      SpacedSnoc(xs[1..], x);
    }
  }

  function AstString(f: Formula): string {
    match f
    case Implication(l, r) => Group(ImplicationSymbol, [AstString(l), AstString(r)])
    case Conjunction(l, r) => Group(ConjunctionSymbol, [AstString(l), AstString(r)])
    case Disjunction(l, r) => Group(DisjunctionSymbol, [AstString(l), AstString(r)])
    case Negation(g) => Group(NegationSymbol, [AstString(g)])
    case Variable(n) => n
    case Truth => TruthSymbol
    case Falsity => FalsitySymbol
  }

  /** Number of occurrences of `c` in `s`. */
  function Count(s: string, c: char): nat {
    if |s| == 0 then 0 else (if s[0] == c then 1 else 0) + Count(s[1..], c)
  }

  /** Opening minus closing parentheses. */
  function Depth(s: string): int {
    Count(s, '(') - Count(s, ')')
  }

  /** No prefix closes more parentheses than it opens. */
  predicate NeverNegative(s: string) {
    forall k :: 0 <= k <= |s| ==> Depth(s[..k]) >= 0
  }

  predicate AlphanumericNames(f: Formula) {
    forall n :: n in VarSet(f) ==> VariableText(n)
  }

  lemma {:induction false} CountConcat(a: string, b: string, c: char)
    ensures Count(a + b, c) == Count(a, c) + Count(b, c)
  {
    if |a| > 0 {
      assert (a + b)[0] == a[0];
      assert (a + b)[1..] == a[1..] + b;
      CountConcat(a[1..], b, c);
    } else {
      assert a + b == b;
    }
  }

  lemma {:induction false} CountNone(s: string, c: char)
    requires forall i :: 0 <= i < |s| ==> s[i] != c
    ensures Count(s, c) == 0
  {
    if |s| > 0 {
      CountNone(s[1..], c);
    }
  }

  lemma NeverNegativeConcat(a: string, b: string)
    requires NeverNegative(a) && NeverNegative(b)
    ensures NeverNegative(a + b)
  {
    forall k | 0 <= k <= |a + b|
      ensures Depth((a + b)[..k]) >= 0
    {
      if k <= |a| {
        assert (a + b)[..k] == a[..k];
      } else {
        assert (a + b)[..k] == a + b[..k - |a|];
        CountConcat(a, b[..k - |a|], '(');
        CountConcat(a, b[..k - |a|], ')');
        assert a[..|a|] == a;
      }
    }
  }

  /** A string without parentheses has depth 0 at every prefix. */
  lemma Flat(s: string)
    requires forall i :: 0 <= i < |s| ==> s[i] != '(' && s[i] != ')'
    ensures NeverNegative(s) && Depth(s) == 0
  {
    forall k | 0 <= k <= |s|
      ensures Depth(s[..k]) == 0
    {
      CountNone(s[..k], '(');
      CountNone(s[..k], ')');
    }
    assert s[..|s|] == s;
  }

  lemma {:induction false} GroupBalanced(op: string, operands: seq<string>)
    requires forall i :: 0 <= i < |op| ==> op[i] != '(' && op[i] != ')'
    requires forall i :: 0 <= i < |operands| ==> NeverNegative(operands[i]) && Depth(operands[i]) == 0
    ensures NeverNegative(Group(op, operands)) && Depth(Group(op, operands)) == 0
    ensures Count(Group(op, operands), '(') == 1 + Count(Spaced(operands), '(')
  {
    SpacedBalanced(operands);
    var inner := op + Spaced(operands);
    Flat(op);
    CountNone(op, '(');
    NeverNegativeConcat(op, Spaced(operands));
    CountConcat(op, Spaced(operands), '(');
    CountConcat(op, Spaced(operands), ')');
    forall k | 0 <= k <= |"(" + inner|
      ensures Depth(("(" + inner)[..k]) >= 1 || k == 0
    {
      if k > 0 {
        assert ("(" + inner)[..k] == "(" + inner[..k - 1];
        CountConcat("(", inner[..k - 1], '(');
        CountConcat("(", inner[..k - 1], ')');
      }
    }
    CountConcat("(", inner, '(');
    CountConcat("(", inner, ')');
    var whole := "(" + inner + ")";
    assert Group(op, operands) == whole;
    CountConcat("(" + inner, ")", '(');
    CountConcat("(" + inner, ")", ')');
    assert Count(")", '(') == 0 && Count(")", ')') == 1;
    assert Depth(whole) == 0;
    forall k | 0 <= k <= |whole|
      ensures Depth(whole[..k]) >= 0
    {
      if k <= |"(" + inner| {
        assert whole[..k] == ("(" + inner)[..k];
      } else {
        assert whole[..k] == whole;
      }
    }
  }

  lemma {:induction false} SpacedBalanced(operands: seq<string>)
    requires forall i :: 0 <= i < |operands| ==> NeverNegative(operands[i]) && Depth(operands[i]) == 0
    ensures NeverNegative(Spaced(operands)) && Depth(Spaced(operands)) == 0
    decreases |operands|
  {
    if |operands| > 0 {
      SpacedBalanced(operands[1..]);
      Flat(" ");
      NeverNegativeConcat(" ", operands[0]);
      CountConcat(" ", operands[0], '(');
      CountConcat(" ", operands[0], ')');
      NeverNegativeConcat(" " + operands[0], Spaced(operands[1..]));
      CountConcat(" " + operands[0], Spaced(operands[1..]), '(');
      CountConcat(" " + operands[0], Spaced(operands[1..]), ')');
      assert Spaced(operands) == " " + operands[0] + Spaced(operands[1..]);
    }
  }

  /**
   * With alphanumeric variable names the parentheses balance: no prefix
   * closes more than it opens, and each connective node contributes exactly
   * one pair.
   */
  lemma {:induction false} AstBalanced(f: Formula)
    requires AlphanumericNames(f)
    decreases f, 1
    ensures NeverNegative(AstString(f)) && Depth(AstString(f)) == 0
    ensures Count(AstString(f), '(') == Connectives(f)
  {
    match f
    case Implication(l, r) => BinaryBalanced(f, ImplicationSymbol);
    case Conjunction(l, r) => BinaryBalanced(f, ConjunctionSymbol);
    case Disjunction(l, r) => BinaryBalanced(f, DisjunctionSymbol);
    case Negation(g) =>
      AstBalanced(g);
      GroupBalanced(NegationSymbol, [AstString(g)]);
      SpacedCount([AstString(g)]);
    case Variable(n) =>
      assert n in VarSet(f);
      Flat(n);
      CountNone(n, '(');
    case Truth => Flat(TruthSymbol);
    case Falsity => Flat(FalsitySymbol);
  }

  lemma {:induction false} BinaryBalanced(f: Formula, op: string)
    requires f.Implication? || f.Conjunction? || f.Disjunction?
    requires op in {ImplicationSymbol, ConjunctionSymbol, DisjunctionSymbol}
    requires AlphanumericNames(f)
    ensures NeverNegative(Group(op, [AstString(f.left), AstString(f.right)]))
    ensures Depth(Group(op, [AstString(f.left), AstString(f.right)])) == 0
    ensures Count(Group(op, [AstString(f.left), AstString(f.right)]), '(') == Connectives(f.left) + Connectives(f.right) + 1
    decreases f, 0
  {
    AstBalanced(f.left);
    AstBalanced(f.right);
    GroupBalanced(op, [AstString(f.left), AstString(f.right)]);
    SpacedCount([AstString(f.left), AstString(f.right)]);
  }

  lemma SpacedCount(operands: seq<string>)
    requires |operands| <= 2
    ensures Count(Spaced(operands), '(') == if |operands| == 0 then 0
      else if |operands| == 1 then Count(operands[0], '(')
      else Count(operands[0], '(') + Count(operands[1], '(')
  {
    if |operands| > 0 {
      CountConcat(" ", operands[0], '(');
      CountConcat(" " + operands[0], Spaced(operands[1..]), '(');
      if |operands| == 2 {
        CountConcat(" ", operands[1], '(');
        assert operands[1..][1..] == [];
        assert Spaced(operands[1..]) == " " + operands[1] + "";
        assert " " + operands[1] + "" == " " + operands[1];
      } else {
        assert Spaced(operands[1..]) == "";
      }
    }
  }
}
