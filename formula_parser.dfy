/**
 * The recursive-descent parser of `parseFormula`. Precedence from loosest to
 * tightest: implication, disjunction, conjunction, negation, primary. Each
 * binary level is a loop, so chains of the same operator group to the left.
 * The reference functions take the token sequence and the index of the next
 * token, and give the formula parsed and the index after it.
 */
module FormulaParser {
  import opened Wrappers
  import opened Formulas
  import opened FormulaScanner

  /** A formula and the index of the first token after it. */
  datatype Parsed = Parsed(f: Formula, next: nat)

  type ParseResult = Result<Parsed, FormulaError>

  /** The errors the parsing functions throw; advancing past the end never happens. */
  predicate ParseError(e: FormulaError) {
    e.Unclosed? || e.ExpectedExpression?
  }

  /** `implication()`: a disjunction, then any number of "->" disjunction. */
  function PImplication(ts: seq<Token>, i: nat): (r: ParseResult)
    requires i <= |ts|
    ensures r.Ok? ==> i < r.value.next <= |ts|
    ensures r.Err? ==> ParseError(r.error)
    decreases |ts| - i, 7
  {
    var d :- PDisjunction(ts, i);
    ImplLoop(ts, d.f, d.next)
  }

  function ImplLoop(ts: seq<Token>, left: Formula, i: nat): (r: ParseResult)
    requires i <= |ts|
    ensures r.Ok? ==> i <= r.value.next <= |ts|
    ensures r.Err? ==> ParseError(r.error)
    decreases |ts| - i, 6
  {
    if i < |ts| && ts[i] == Arrow then
      var d :- PDisjunction(ts, i + 1);
      ImplLoop(ts, Implication(left, d.f), d.next)
    else Ok(Parsed(left, i))
  }

  /** `disjunction()`: a conjunction, then any number of "|" conjunction. */
  function PDisjunction(ts: seq<Token>, i: nat): (r: ParseResult)
    requires i <= |ts|
    ensures r.Ok? ==> i < r.value.next <= |ts|
    ensures r.Err? ==> ParseError(r.error)
    decreases |ts| - i, 5
  {
    var c :- PConjunction(ts, i);
    DisjLoop(ts, c.f, c.next)
  }

  function DisjLoop(ts: seq<Token>, left: Formula, i: nat): (r: ParseResult)
    requires i <= |ts|
    ensures r.Ok? ==> i <= r.value.next <= |ts|
    ensures r.Err? ==> ParseError(r.error)
    decreases |ts| - i, 4
  {
    if i < |ts| && ts[i] == Line then
      var c :- PConjunction(ts, i + 1);
      DisjLoop(ts, Disjunction(left, c.f), c.next)
    else Ok(Parsed(left, i))
  }

  /** `conjunction()`: a negation, then any number of "&" negation. */
  function PConjunction(ts: seq<Token>, i: nat): (r: ParseResult)
    requires i <= |ts|
    ensures r.Ok? ==> i < r.value.next <= |ts|
    ensures r.Err? ==> ParseError(r.error)
    decreases |ts| - i, 3
  {
    var n :- PNegation(ts, i);
    ConjLoop(ts, n.f, n.next)
  }

  function ConjLoop(ts: seq<Token>, left: Formula, i: nat): (r: ParseResult)
    requires i <= |ts|
    ensures r.Ok? ==> i <= r.value.next <= |ts|
    ensures r.Err? ==> ParseError(r.error)
    decreases |ts| - i, 2
  {
    if i < |ts| && ts[i] == Ampersand then
      var n :- PNegation(ts, i + 1);
      ConjLoop(ts, Conjunction(left, n.f), n.next)
    else Ok(Parsed(left, i))
  }

  /** `negation()`: any number of "-" before a primary. */
  function PNegation(ts: seq<Token>, i: nat): (r: ParseResult)
    requires i <= |ts|
    ensures r.Ok? ==> i < r.value.next <= |ts|
    ensures r.Err? ==> ParseError(r.error)
    decreases |ts| - i, 1
  {
    if i < |ts| && ts[i] == Minus then
      var n :- PNegation(ts, i + 1);
      Ok(Parsed(Negation(n.f), n.next))
    else PPrimary(ts, i)
  }

  /**
   * `primary()`: "T", "F", a bracketed formula, or a variable token. A
   * missing ")" is `Unclosed`; anything else, including the end of the
   * tokens, is `ExpectedExpression` naming the token found, if any.
   */
  function PPrimary(ts: seq<Token>, i: nat): (r: ParseResult)
    requires i <= |ts|
    ensures r.Ok? ==> i < r.value.next <= |ts|
    ensures r.Err? ==> ParseError(r.error)
    decreases |ts| - i, 0
  {
    if i < |ts| && ts[i] == TruthToken then Ok(Parsed(Truth, i + 1))
    else if i < |ts| && ts[i] == FalsityToken then Ok(Parsed(Falsity, i + 1))
    else if i < |ts| && ts[i] == LeftParen then
      var p :- PImplication(ts, i + 1);
      if p.next < |ts| && ts[p.next] == RightParen then Ok(Parsed(p.f, p.next + 1))
      else Err(Unclosed)
    else if i < |ts| && VariableText(ts[i]) then Ok(Parsed(Variable(ts[i]), i + 1))
    else Err(ExpectedExpression(if i < |ts| then Some(ts[i]) else None))
  }

  function FormulaOf(r: ParseResult): Result<Formula, FormulaError> {
    if r.Ok? then Ok(r.value.f) else Err(r.error)
  }

  /** `parse`: a formula from the first token on; tokens after it are left over and ignored. */
  function ParseTokens(ts: seq<Token>): Result<Formula, FormulaError> {
    FormulaOf(PImplication(ts, 0))
  }

  /** `parseFormula`: lex, then parse. */
  function ParseFormulaText(s: string): Result<Formula, FormulaError> {
    var ts :- Lex(s);
    ParseTokens(ts)
  }

  /** The parser's state: the tokens and the cursor `currentTokenIndex`. */
  class Parser {
    const tokens: seq<Token>
    var current: nat

    constructor(tokens: seq<Token>)
      ensures this.tokens == tokens && current == 0
    {
      this.tokens := tokens;
      current := 0;
    }

    predicate AtEnd()
      reads this
    {
      current >= |tokens|
    }

    /** `peek`: the current token, `undefined` (None) past the end. */
    function Peek(): Option<Token>
      reads this
    {
      if current < |tokens| then Some(tokens[current]) else None
    }

    /** `advance`: the current token, moving past it; at the end it throws. */
    method Advance() returns (r: Result<Token, FormulaError>)
      modifies this
      ensures old(current) < |tokens| ==> r == Ok(tokens[old(current)]) && current == old(current) + 1
      ensures old(current) >= |tokens| ==> r == Err(FormulaError.AtEnd) && current == old(current)
    {
      if !AtEnd() {
        r := Ok(tokens[current]);
        current := current + 1;
      } else {
        r := Err(FormulaError.AtEnd);
      }
    }

    /** `match`: consumes the current token when it is `token`. */
    method Match(token: Token) returns (b: bool)
      modifies this
      ensures b <==> old(current) < |tokens| && tokens[old(current)] == token
      ensures current == if b then old(current) + 1 else old(current)
    {
      if AtEnd() || Peek() != Some(token) {
        return false;
      }
      var _ := Advance();
      return true;
    }

    method Implication() returns (r: Result<Formula, FormulaError>)
      requires current <= |tokens|
      modifies this
      ensures r == FormulaOf(PImplication(tokens, old(current)))
      ensures r.Ok? ==> current == PImplication(tokens, old(current)).value.next
      decreases |tokens| - current, 7
    {
      ghost var start := current;
      var left :- Disjunction();
      while true
        invariant start < current <= |tokens|
        invariant PImplication(tokens, start) == ImplLoop(tokens, left, current)
        decreases |tokens| - current
      {
        var m := Match(Arrow);
        if !m {
          return Ok(left);
        }
        var right :- Disjunction();
        left := Formula.Implication(left, right);
      }
    }

    method Disjunction() returns (r: Result<Formula, FormulaError>)
      requires current <= |tokens|
      modifies this
      ensures r == FormulaOf(PDisjunction(tokens, old(current)))
      ensures r.Ok? ==> current == PDisjunction(tokens, old(current)).value.next
      decreases |tokens| - current, 5
    {
      ghost var start := current;
      var left :- Conjunction();
      while true
        invariant start < current <= |tokens|
        invariant PDisjunction(tokens, start) == DisjLoop(tokens, left, current)
        decreases |tokens| - current
      {
        var m := Match(Line);
        if !m {
          return Ok(left);
        }
        var right :- Conjunction();
        left := Formula.Disjunction(left, right);
      }
    }

    method Conjunction() returns (r: Result<Formula, FormulaError>)
      requires current <= |tokens|
      modifies this
      ensures r == FormulaOf(PConjunction(tokens, old(current)))
      ensures r.Ok? ==> current == PConjunction(tokens, old(current)).value.next
      decreases |tokens| - current, 3
    {
      ghost var start := current;
      var left :- Negation();
      while true
        invariant start < current <= |tokens|
        invariant PConjunction(tokens, start) == ConjLoop(tokens, left, current)
        decreases |tokens| - current
      {
        var m := Match(Ampersand);
        if !m {
          return Ok(left);
        }
        var right :- Negation();
        left := Formula.Conjunction(left, right);
      }
    }

    method Negation() returns (r: Result<Formula, FormulaError>)
      requires current <= |tokens|
      modifies this
      ensures r == FormulaOf(PNegation(tokens, old(current)))
      ensures r.Ok? ==> current == PNegation(tokens, old(current)).value.next
      decreases |tokens| - current, 1
    {
      var m := Match(Minus);
      if m {
        var g :- Negation();
        return Ok(Formula.Negation(g));
      }
      r := Primary();
    }

    method Primary() returns (r: Result<Formula, FormulaError>)
      requires current <= |tokens|
      modifies this
      ensures r == FormulaOf(PPrimary(tokens, old(current)))
      ensures r.Ok? ==> current == PPrimary(tokens, old(current)).value.next
      decreases |tokens| - current, 0
    {
      var m := Match(TruthToken);
      if m {
        return Ok(Truth);
      }
      m := Match(FalsityToken);
      if m {
        return Ok(Falsity);
      }
      m := Match(LeftParen);
      if m {
        var inner :- Implication();
        var closed := Match(RightParen);
        if !closed {
          return Err(Unclosed);
        }
        return Ok(inner);
      }
      var named := IsVariableText(Peek());
      if named {
        var name := Advance();
        return Ok(Variable(name.value));
      }
      return Err(ExpectedExpression(Peek()));
    }
  }

  /** `parseFormula`: scan the text, then parse the tokens from the first one. */
  method ParseFormula(formulaText: string) returns (r: Result<Formula, FormulaError>)
    ensures r == ParseFormulaText(formulaText)
  {
    var tokens :- Scan(formulaText);
    var parser := new Parser(tokens);
    r := parser.Implication();
  }

  /** The tokens of a fully bracketed formula: every binary connective gets its own brackets. */
  function Tokens(f: Formula): seq<Token> {
    match f
    case Implication(l, r) => [LeftParen] + Tokens(l) + [Arrow] + Tokens(r) + [RightParen]
    case Conjunction(l, r) => [LeftParen] + Tokens(l) + [Ampersand] + Tokens(r) + [RightParen]
    case Disjunction(l, r) => [LeftParen] + Tokens(l) + [Line] + Tokens(r) + [RightParen]
    case Negation(g) => [Minus] + Tokens(g)
    case Variable(n) => [n]
    case Truth => [TruthToken]
    case Falsity => [FalsityToken]
  }

  /**
   * Formulas the parser can give back: every variable name is non-empty
   * variable text and is neither "T" nor "F", which are read as constants.
   */
  predicate WellNamed(f: Formula) {
    match f
    case Implication(l, r) => WellNamed(l) && WellNamed(r)
    case Conjunction(l, r) => WellNamed(l) && WellNamed(r)
    case Disjunction(l, r) => WellNamed(l) && WellNamed(r)
    case Negation(g) => WellNamed(g)
    case Variable(n) => |n| > 0 && VariableText(n) && n != TruthToken && n != FalsityToken
    case Truth => true
    case Falsity => true
  }

  /** A parse at the negation level is the whole conjunction when no "&" follows. */
  lemma LiftConjunction(ts: seq<Token>, i: nat, f: Formula, j: nat)
    requires i <= |ts| && PNegation(ts, i) == Ok(Parsed(f, j))
    requires j == |ts| || ts[j] != Ampersand
    ensures PConjunction(ts, i) == Ok(Parsed(f, j))
  {
  }

  /** A parse at the conjunction level is the whole disjunction when no "|" follows. */
  lemma LiftDisjunction(ts: seq<Token>, i: nat, f: Formula, j: nat)
    requires i <= |ts| && PConjunction(ts, i) == Ok(Parsed(f, j))
    requires j == |ts| || ts[j] != Line
    ensures PDisjunction(ts, i) == Ok(Parsed(f, j))
  {
  }

  /** A parse at the disjunction level is the whole implication when no "->" follows. */
  lemma LiftImplication(ts: seq<Token>, i: nat, f: Formula, j: nat)
    requires i <= |ts| && PDisjunction(ts, i) == Ok(Parsed(f, j))
    requires j == |ts| || ts[j] != Arrow
    ensures PImplication(ts, i) == Ok(Parsed(f, j))
  {
  }

  /** A parse at the negation level is the whole formula when no binary operator follows. */
  lemma LiftAll(ts: seq<Token>, i: nat, f: Formula, j: nat)
    requires i <= |ts| && PNegation(ts, i) == Ok(Parsed(f, j))
    requires j == |ts| || (ts[j] != Ampersand && ts[j] != Line && ts[j] != Arrow)
    ensures PImplication(ts, i) == Ok(Parsed(f, j))
  {
    LiftConjunction(ts, i, f, j);
    LiftDisjunction(ts, i, f, j);
    LiftImplication(ts, i, f, j);
  }

  /** A bracketed formula closed by ")" is a primary, and so a negation-level parse. */
  lemma BracketParse(ts: seq<Token>, i: nat, f: Formula, m: nat)
    requires i < |ts| && ts[i] == LeftParen
    requires PImplication(ts, i + 1) == Ok(Parsed(f, m))
    requires m < |ts| && ts[m] == RightParen
    ensures PNegation(ts, i) == Ok(Parsed(f, m + 1))
  {
    assert PPrimary(ts, i) == Ok(Parsed(f, m + 1));
  }

  /** "l -> r" followed by ")" parses as the implication. */
  lemma ImplicationStep(ts: seq<Token>, j: nat, l: Formula, k: nat, r: Formula, m: nat)
    requires j <= |ts| && PNegation(ts, j) == Ok(Parsed(l, k))
    requires k < |ts| && ts[k] == Arrow && PNegation(ts, k + 1) == Ok(Parsed(r, m))
    requires m < |ts| && ts[m] == RightParen
    ensures PImplication(ts, j) == Ok(Parsed(Implication(l, r), m))
  {
    LiftConjunction(ts, j, l, k);
    LiftDisjunction(ts, j, l, k);
    LiftConjunction(ts, k + 1, r, m);
    LiftDisjunction(ts, k + 1, r, m);
    assert ImplLoop(ts, Implication(l, r), m) == Ok(Parsed(Implication(l, r), m));
    assert ImplLoop(ts, l, k) == ImplLoop(ts, Implication(l, r), m);
  }

  /** "l | r" followed by ")" parses as the disjunction. */
  lemma DisjunctionStep(ts: seq<Token>, j: nat, l: Formula, k: nat, r: Formula, m: nat)
    requires j <= |ts| && PNegation(ts, j) == Ok(Parsed(l, k))
    requires k < |ts| && ts[k] == Line && PNegation(ts, k + 1) == Ok(Parsed(r, m))
    requires m < |ts| && ts[m] == RightParen
    ensures PImplication(ts, j) == Ok(Parsed(Disjunction(l, r), m))
  {
    LiftConjunction(ts, j, l, k);
    LiftConjunction(ts, k + 1, r, m);
    assert DisjLoop(ts, Disjunction(l, r), m) == Ok(Parsed(Disjunction(l, r), m));
    assert DisjLoop(ts, l, k) == DisjLoop(ts, Disjunction(l, r), m);
    LiftImplication(ts, j, Disjunction(l, r), m);
  }

  /** "l & r" followed by ")" parses as the conjunction. */
  lemma ConjunctionStep(ts: seq<Token>, j: nat, l: Formula, k: nat, r: Formula, m: nat)
    requires j <= |ts| && PNegation(ts, j) == Ok(Parsed(l, k))
    requires k < |ts| && ts[k] == Ampersand && PNegation(ts, k + 1) == Ok(Parsed(r, m))
    requires m < |ts| && ts[m] == RightParen
    ensures PImplication(ts, j) == Ok(Parsed(Conjunction(l, r), m))
  {
    assert ConjLoop(ts, Conjunction(l, r), m) == Ok(Parsed(Conjunction(l, r), m));
    assert ConjLoop(ts, l, k) == ConjLoop(ts, Conjunction(l, r), m);
    LiftDisjunction(ts, j, Conjunction(l, r), m);
    LiftImplication(ts, j, Conjunction(l, r), m);
  }

  /** A variable name is never an operator token. */
  lemma NameIsNoOperator(n: Token)
    requires |n| > 0 && VariableText(n)
    ensures !IsOperator(n)
  {
    assert IsAlphanumeric(n[0]);
  }

  /**
   * The bracketed tokens of a well-named formula, wherever they stand, parse
   * at the negation level to exactly that formula and stop right after them.
   */
  lemma {:induction false} UnitParse(ts: seq<Token>, i: nat, f: Formula)
    requires WellNamed(f) && Placed(ts, i, Tokens(f))
    ensures PNegation(ts, i) == Ok(Parsed(f, i + |Tokens(f)|))
    decreases f, 2
  {
    match f
    case Implication(l, r) => ImplicationUnit(ts, i, l, r);
    case Conjunction(l, r) => ConjunctionUnit(ts, i, l, r);
    case Disjunction(l, r) => DisjunctionUnit(ts, i, l, r);
    case Negation(g) =>
      NegationPlaced(ts, i, Tokens(g));
      UnitParse(ts, i + 1, g);
    case Variable(n) =>
      assert ts[i + 0] == Tokens(f)[0];
      NameIsNoOperator(n);
    case Truth =>
      assert ts[i + 0] == Tokens(f)[0];
    case Falsity =>
      assert ts[i + 0] == Tokens(f)[0];
  }

  lemma {:induction false} ImplicationUnit(ts: seq<Token>, i: nat, l: Formula, r: Formula)
    requires WellNamed(l) && WellNamed(r) && Placed(ts, i, Tokens(Implication(l, r)))
    ensures PNegation(ts, i) == Ok(Parsed(Implication(l, r), i + |Tokens(Implication(l, r))|))
    decreases Implication(l, r), 1
  {
    BinaryPlaced(ts, i, Arrow, Tokens(l), Tokens(r));
    ImplicationInside(ts, i + 1, l, i + 1 + |Tokens(l)|, r, i + 2 + |Tokens(l)| + |Tokens(r)|);
    BracketParse(ts, i, Implication(l, r), i + 2 + |Tokens(l)| + |Tokens(r)|);
  }

  /** Between the brackets, the two operands around the operator parse as the whole formula. */
  lemma {:induction false} ImplicationInside(ts: seq<Token>, j: nat, l: Formula, k: nat, r: Formula, m: nat)
    requires WellNamed(l) && WellNamed(r) && Placed(ts, j, Tokens(l)) && k == j + |Tokens(l)|
    requires k < |ts| && ts[k] == Arrow && Placed(ts, k + 1, Tokens(r)) && m == k + 1 + |Tokens(r)|
    requires m < |ts| && ts[m] == RightParen
    ensures PImplication(ts, j) == Ok(Parsed(Implication(l, r), m))
    decreases Implication(l, r), 0
  {
    UnitParse(ts, j, l);
    UnitParse(ts, k + 1, r);
    ImplicationStep(ts, j, l, k, r, m);
  }

  lemma {:induction false} ConjunctionUnit(ts: seq<Token>, i: nat, l: Formula, r: Formula)
    requires WellNamed(l) && WellNamed(r) && Placed(ts, i, Tokens(Conjunction(l, r)))
    ensures PNegation(ts, i) == Ok(Parsed(Conjunction(l, r), i + |Tokens(Conjunction(l, r))|))
    decreases Conjunction(l, r), 1
  {
    BinaryPlaced(ts, i, Ampersand, Tokens(l), Tokens(r));
    ConjunctionInside(ts, i + 1, l, i + 1 + |Tokens(l)|, r, i + 2 + |Tokens(l)| + |Tokens(r)|);
    BracketParse(ts, i, Conjunction(l, r), i + 2 + |Tokens(l)| + |Tokens(r)|);
  }

  /** Between the brackets, the two operands around the operator parse as the whole formula. */
  lemma {:induction false} ConjunctionInside(ts: seq<Token>, j: nat, l: Formula, k: nat, r: Formula, m: nat)
    requires WellNamed(l) && WellNamed(r) && Placed(ts, j, Tokens(l)) && k == j + |Tokens(l)|
    requires k < |ts| && ts[k] == Ampersand && Placed(ts, k + 1, Tokens(r)) && m == k + 1 + |Tokens(r)|
    requires m < |ts| && ts[m] == RightParen
    ensures PImplication(ts, j) == Ok(Parsed(Conjunction(l, r), m))
    decreases Conjunction(l, r), 0
  {
    UnitParse(ts, j, l);
    UnitParse(ts, k + 1, r);
    ConjunctionStep(ts, j, l, k, r, m);
  }

  lemma {:induction false} DisjunctionUnit(ts: seq<Token>, i: nat, l: Formula, r: Formula)
    requires WellNamed(l) && WellNamed(r) && Placed(ts, i, Tokens(Disjunction(l, r)))
    ensures PNegation(ts, i) == Ok(Parsed(Disjunction(l, r), i + |Tokens(Disjunction(l, r))|))
    decreases Disjunction(l, r), 1
  {
    BinaryPlaced(ts, i, Line, Tokens(l), Tokens(r));
    DisjunctionInside(ts, i + 1, l, i + 1 + |Tokens(l)|, r, i + 2 + |Tokens(l)| + |Tokens(r)|);
    BracketParse(ts, i, Disjunction(l, r), i + 2 + |Tokens(l)| + |Tokens(r)|);
  }

  /** Between the brackets, the two operands around the operator parse as the whole formula. */
  lemma {:induction false} DisjunctionInside(ts: seq<Token>, j: nat, l: Formula, k: nat, r: Formula, m: nat)
    requires WellNamed(l) && WellNamed(r) && Placed(ts, j, Tokens(l)) && k == j + |Tokens(l)|
    requires k < |ts| && ts[k] == Line && Placed(ts, k + 1, Tokens(r)) && m == k + 1 + |Tokens(r)|
    requires m < |ts| && ts[m] == RightParen
    ensures PImplication(ts, j) == Ok(Parsed(Disjunction(l, r), m))
    decreases Disjunction(l, r), 0
  {
    UnitParse(ts, j, l);
    UnitParse(ts, k + 1, r);
    DisjunctionStep(ts, j, l, k, r, m);
  }

  /** The token sequence `t` stands in `ts` from index `i` on. */
  predicate Placed(ts: seq<Token>, i: nat, t: seq<Token>) {
    i + |t| <= |ts| && forall k :: 0 <= k < |t| ==> ts[i + k] == t[k]
  }

  /** Where the parts of placed bracketed binary tokens stand. */
  lemma BinaryPlaced(ts: seq<Token>, i: nat, op: Token, l: seq<Token>, r: seq<Token>)
    requires Placed(ts, i, [LeftParen] + l + [op] + r + [RightParen])
    ensures ts[i] == LeftParen && Placed(ts, i + 1, l) && ts[i + 1 + |l|] == op
    ensures Placed(ts, i + 2 + |l|, r) && ts[i + 2 + |l| + |r|] == RightParen
  {
    var t := [LeftParen] + l + [op] + r + [RightParen];
    assert ts[i + 0] == t[0];
    assert ts[i + (1 + |l|)] == t[1 + |l|];
    assert ts[i + (2 + |l| + |r|)] == t[2 + |l| + |r|];
    forall k | 0 <= k < |l|
      ensures ts[i + 1 + k] == l[k]
    {
      assert ts[i + (1 + k)] == t[1 + k];
    }
    forall k | 0 <= k < |r|
      ensures ts[i + 2 + |l| + k] == r[k]
    {
      assert ts[i + (2 + |l| + k)] == t[2 + |l| + k];
    }
  }

  /** Where the parts of placed negation tokens stand. */
  lemma NegationPlaced(ts: seq<Token>, i: nat, g: seq<Token>)
    requires Placed(ts, i, [Minus] + g)
    ensures ts[i] == Minus && Placed(ts, i + 1, g)
  {
    var t := [Minus] + g;
    assert ts[i + 0] == t[0];
    forall k | 0 <= k < |g|
      ensures ts[i + 1 + k] == g[k]
    {
      assert ts[i + (1 + k)] == t[1 + k];
    }
  }

  /**
   * Parsing the bracketed tokens of a well-named formula gives the formula
   * back, and tokens left over after it are ignored unless they continue it
   * with a binary operator.
   */
  lemma ParseTokensOf(f: Formula, rest: seq<Token>)
    requires WellNamed(f)
    requires rest == [] || (rest[0] != Ampersand && rest[0] != Line && rest[0] != Arrow)
    ensures ParseTokens(Tokens(f) + rest) == Ok(f)
  {
    assert Placed(Tokens(f) + rest, 0, Tokens(f));
    UnitParse(Tokens(f) + rest, 0, f);
    LiftAll(Tokens(f) + rest, 0, f, |Tokens(f)|);
  }

  /** Every token of a well-named formula is a token the lexer can produce. */
  lemma {:induction false} TokensValid(f: Formula)
    requires WellNamed(f)
    ensures forall k :: 0 <= k < |Tokens(f)| ==> ValidToken(Tokens(f)[k])
  {
    match f
    case Implication(l, r) => TokensValid(l); TokensValid(r);
    case Conjunction(l, r) => TokensValid(l); TokensValid(r);
    case Disjunction(l, r) => TokensValid(l); TokensValid(r);
    case Negation(g) => TokensValid(g);
    case _ =>
  }

  /** Writing out a well-named formula fully bracketed, and parsing the text, gives the formula back. */
  lemma ParseUnlexed(f: Formula)
    requires WellNamed(f)
    ensures ParseFormulaText(Unlex(Tokens(f))) == Ok(f)
  {
    TokensValid(f);
    LexUnlex(Tokens(f));
    ParseTokensOf(f, []);
    assert Tokens(f) + [] == Tokens(f);
  }

  /** One more pass of the implication loop: "-> r" extends the left operand. */
  lemma ImplLoopStep(ts: seq<Token>, left: Formula, k: nat, r: Formula, m: nat)
    requires k < |ts| && ts[k] == Arrow && PDisjunction(ts, k + 1) == Ok(Parsed(r, m))
    ensures ImplLoop(ts, left, k) == ImplLoop(ts, Implication(left, r), m)
  {
  }

  /** One more pass of the disjunction loop: "| r" extends the left operand. */
  lemma DisjLoopStep(ts: seq<Token>, left: Formula, k: nat, r: Formula, m: nat)
    requires k < |ts| && ts[k] == Line && PConjunction(ts, k + 1) == Ok(Parsed(r, m))
    ensures DisjLoop(ts, left, k) == DisjLoop(ts, Disjunction(left, r), m)
  {
  }

  /** One more pass of the conjunction loop: "& r" extends the left operand. */
  lemma ConjLoopStep(ts: seq<Token>, left: Formula, k: nat, r: Formula, m: nat)
    requires k < |ts| && ts[k] == Ampersand && PNegation(ts, k + 1) == Ok(Parsed(r, m))
    ensures ConjLoop(ts, left, k) == ConjLoop(ts, Conjunction(left, r), m)
  {
  }

  /** A parse at the negation level is a whole disjunction when neither "&" nor "|" follows. */
  lemma LiftTwo(ts: seq<Token>, i: nat, f: Formula, j: nat)
    requires i <= |ts| && PNegation(ts, i) == Ok(Parsed(f, j))
    requires j == |ts| || (ts[j] != Ampersand && ts[j] != Line)
    ensures PDisjunction(ts, i) == Ok(Parsed(f, j))
  {
    LiftConjunction(ts, i, f, j);
    LiftDisjunction(ts, i, f, j);
  }

  /**
   * Implication groups to the left: three operands, each read as a unit at
   * the negation level (a literal, a negation or a bracketed formula) and
   * separated by "->", parse as (a -> b) -> c.
   */
  lemma ImplicationGroupsLeft(ts: seq<Token>, a: Formula, k: nat, b: Formula, m: nat, c: Formula)
    requires PNegation(ts, 0) == Ok(Parsed(a, k)) && k < |ts| && ts[k] == Arrow
    requires PNegation(ts, k + 1) == Ok(Parsed(b, m)) && m < |ts| && ts[m] == Arrow
    requires PNegation(ts, m + 1) == Ok(Parsed(c, |ts|))
    ensures PImplication(ts, 0) == Ok(Parsed(Implication(Implication(a, b), c), |ts|))
  {
    LiftTwo(ts, 0, a, k);
    LiftTwo(ts, k + 1, b, m);
    LiftTwo(ts, m + 1, c, |ts|);
    ImplLoopStep(ts, a, k, b, m);
    ImplLoopStep(ts, Implication(a, b), m, c, |ts|);
  }

  /** The tokens of a well-named formula at the front parse at the negation level. */
  lemma UnitFirst(f: Formula, rest: seq<Token>)
    requires WellNamed(f)
    ensures PNegation(Tokens(f) + rest, 0) == Ok(Parsed(f, |Tokens(f)|))
  {
    var ts := Tokens(f) + rest;
    assert Placed(ts, 0, Tokens(f));
    UnitParse(ts, 0, f);
  }

  /** Conjunction binds tighter than disjunction on the right: "a | b & c" parses as a | (b & c). */
  lemma ConjunctionBindsTighterRight(ts: seq<Token>, a: Formula, k: nat, b: Formula, m: nat, c: Formula)
    requires PNegation(ts, 0) == Ok(Parsed(a, k)) && k < |ts| && ts[k] == Line
    requires PNegation(ts, k + 1) == Ok(Parsed(b, m)) && m < |ts| && ts[m] == Ampersand
    requires PNegation(ts, m + 1) == Ok(Parsed(c, |ts|))
    ensures PImplication(ts, 0) == Ok(Parsed(Disjunction(a, Conjunction(b, c)), |ts|))
  {
    LiftConjunction(ts, 0, a, k);
    ConjLoopStep(ts, b, m, c, |ts|);
    assert PConjunction(ts, k + 1) == Ok(Parsed(Conjunction(b, c), |ts|));
    DisjLoopStep(ts, a, k, Conjunction(b, c), |ts|);
    LiftImplication(ts, 0, Disjunction(a, Conjunction(b, c)), |ts|);
  }

  /** Conjunction binds tighter than disjunction on the left: "a & b | c" parses as (a & b) | c. */
  lemma ConjunctionBindsTighterLeft(ts: seq<Token>, a: Formula, k: nat, b: Formula, m: nat, c: Formula)
    requires PNegation(ts, 0) == Ok(Parsed(a, k)) && k < |ts| && ts[k] == Ampersand
    requires PNegation(ts, k + 1) == Ok(Parsed(b, m)) && m < |ts| && ts[m] == Line
    requires PNegation(ts, m + 1) == Ok(Parsed(c, |ts|))
    ensures PImplication(ts, 0) == Ok(Parsed(Disjunction(Conjunction(a, b), c), |ts|))
  {
    ConjLoopStep(ts, a, k, b, m);
    assert PConjunction(ts, 0) == Ok(Parsed(Conjunction(a, b), m));
    LiftConjunction(ts, m + 1, c, |ts|);
    DisjLoopStep(ts, Conjunction(a, b), m, c, |ts|);
    LiftImplication(ts, 0, Disjunction(Conjunction(a, b), c), |ts|);
  }

  /** Conjunction groups to the left: "a & b & c" parses as (a & b) & c. */
  lemma ConjunctionGroupsLeft(ts: seq<Token>, a: Formula, k: nat, b: Formula, m: nat, c: Formula)
    requires PNegation(ts, 0) == Ok(Parsed(a, k)) && k < |ts| && ts[k] == Ampersand
    requires PNegation(ts, k + 1) == Ok(Parsed(b, m)) && m < |ts| && ts[m] == Ampersand
    requires PNegation(ts, m + 1) == Ok(Parsed(c, |ts|))
    ensures PImplication(ts, 0) == Ok(Parsed(Conjunction(Conjunction(a, b), c), |ts|))
  {
    ConjLoopStep(ts, a, k, b, m);
    ConjLoopStep(ts, Conjunction(a, b), m, c, |ts|);
    assert PConjunction(ts, 0) == Ok(Parsed(Conjunction(Conjunction(a, b), c), |ts|));
    LiftDisjunction(ts, 0, Conjunction(Conjunction(a, b), c), |ts|);
    LiftImplication(ts, 0, Conjunction(Conjunction(a, b), c), |ts|);
  }

  /** Disjunction groups to the left: "a | b | c" parses as (a | b) | c. */
  lemma DisjunctionGroupsLeft(ts: seq<Token>, a: Formula, k: nat, b: Formula, m: nat, c: Formula)
    requires PNegation(ts, 0) == Ok(Parsed(a, k)) && k < |ts| && ts[k] == Line
    requires PNegation(ts, k + 1) == Ok(Parsed(b, m)) && m < |ts| && ts[m] == Line
    requires PNegation(ts, m + 1) == Ok(Parsed(c, |ts|))
    ensures PImplication(ts, 0) == Ok(Parsed(Disjunction(Disjunction(a, b), c), |ts|))
  {
    LiftConjunction(ts, 0, a, k);
    LiftConjunction(ts, k + 1, b, m);
    LiftConjunction(ts, m + 1, c, |ts|);
    DisjLoopStep(ts, a, k, b, m);
    DisjLoopStep(ts, Disjunction(a, b), m, c, |ts|);
    assert PDisjunction(ts, 0) == Ok(Parsed(Disjunction(Disjunction(a, b), c), |ts|));
    LiftImplication(ts, 0, Disjunction(Disjunction(a, b), c), |ts|);
  }

  /** Disjunction binds tighter than implication on the left: "a | b -> c" parses as (a | b) -> c. */
  lemma DisjunctionBindsTighterLeft(ts: seq<Token>, a: Formula, k: nat, b: Formula, m: nat, c: Formula)
    requires PNegation(ts, 0) == Ok(Parsed(a, k)) && k < |ts| && ts[k] == Line
    requires PNegation(ts, k + 1) == Ok(Parsed(b, m)) && m < |ts| && ts[m] == Arrow
    requires PNegation(ts, m + 1) == Ok(Parsed(c, |ts|))
    ensures PImplication(ts, 0) == Ok(Parsed(Implication(Disjunction(a, b), c), |ts|))
  {
    LiftConjunction(ts, 0, a, k);
    LiftConjunction(ts, k + 1, b, m);
    DisjLoopStep(ts, a, k, b, m);
    assert PDisjunction(ts, 0) == Ok(Parsed(Disjunction(a, b), m));
    LiftTwo(ts, m + 1, c, |ts|);
    ImplLoopStep(ts, Disjunction(a, b), m, c, |ts|);
  }

  /** Disjunction binds tighter than implication on the right: "a -> b | c" parses as a -> (b | c). */
  lemma DisjunctionBindsTighterRight(ts: seq<Token>, a: Formula, k: nat, b: Formula, m: nat, c: Formula)
    requires PNegation(ts, 0) == Ok(Parsed(a, k)) && k < |ts| && ts[k] == Arrow
    requires PNegation(ts, k + 1) == Ok(Parsed(b, m)) && m < |ts| && ts[m] == Line
    requires PNegation(ts, m + 1) == Ok(Parsed(c, |ts|))
    ensures PImplication(ts, 0) == Ok(Parsed(Implication(a, Disjunction(b, c)), |ts|))
  {
    LiftTwo(ts, 0, a, k);
    LiftConjunction(ts, k + 1, b, m);
    LiftConjunction(ts, m + 1, c, |ts|);
    DisjLoopStep(ts, b, m, c, |ts|);
    assert PDisjunction(ts, k + 1) == Ok(Parsed(Disjunction(b, c), |ts|));
    ImplLoopStep(ts, a, k, Disjunction(b, c), |ts|);
  }

  /** The token of a well-named variable parses as that variable. */
  lemma VariableUnit(ts: seq<Token>, i: nat, x: Token)
    requires WellNamed(Variable(x)) && i < |ts| && ts[i] == x
    ensures PNegation(ts, i) == Ok(Parsed(Variable(x), i + 1))
  {
    NameIsNoOperator(x);
  }

  /** "x -> y -> z" for variable names reads as (x -> y) -> z. */
  lemma VariablesGroupLeft(x: Token, y: Token, z: Token)
    requires WellNamed(Variable(x)) && WellNamed(Variable(y)) && WellNamed(Variable(z))
    ensures ParseTokens([x, Arrow, y, Arrow, z]) == Ok(Implication(Implication(Variable(x), Variable(y)), Variable(z)))
  {
    var ts := [x, Arrow, y, Arrow, z];
    VariableUnit(ts, 0, x);
    VariableUnit(ts, 2, y);
    VariableUnit(ts, 4, z);
    ImplicationGroupsLeft(ts, Variable(x), 1, Variable(y), 3, Variable(z));
  }

  /** An error at the negation level is the error of the whole parse. */
  lemma ErrorUp(ts: seq<Token>, i: nat, e: FormulaError)
    requires i <= |ts| && PNegation(ts, i) == Err(e)
    ensures PConjunction(ts, i) == Err(e) && PDisjunction(ts, i) == Err(e) && PImplication(ts, i) == Err(e)
  {
    assert PConjunction(ts, i) == Err(e);
    assert PDisjunction(ts, i) == Err(e);
  }

  /** An opening bracket whose formula is never closed is `Unclosed`. */
  lemma UnclosedBracket(f: Formula)
    requires WellNamed(f)
    ensures ParseTokens([LeftParen] + Tokens(f)) == Err(Unclosed)
  {
    var ts := [LeftParen] + Tokens(f);
    assert Placed(ts, 1, Tokens(f)) by {
      forall k | 0 <= k < |Tokens(f)|
        ensures ts[1 + k] == Tokens(f)[k]
      {
      }
    }
    UnitParse(ts, 1, f);
    LiftAll(ts, 1, f, |ts|);
    assert PPrimary(ts, 0) == Err(Unclosed);
    assert PNegation(ts, 0) == Err(Unclosed);
    ErrorUp(ts, 0, Unclosed);
  }

  /** "&" at the very end leaves the right operand of the conjunction missing. */
  lemma DanglingAmpersand(ts: seq<Token>, a: Formula, k: nat, e: FormulaError)
    requires PNegation(ts, 0) == Ok(Parsed(a, k)) && k < |ts| && ts[k] == Ampersand
    requires PNegation(ts, k + 1) == Err(e)
    ensures PImplication(ts, 0) == Err(e)
  {
    assert ConjLoop(ts, a, k) == Err(e);
    assert PConjunction(ts, 0) == Err(e);
    assert PDisjunction(ts, 0) == Err(e);
  }

  /** "|" at the very end leaves the right operand of the disjunction missing. */
  lemma DanglingLine(ts: seq<Token>, a: Formula, k: nat, e: FormulaError)
    requires PNegation(ts, 0) == Ok(Parsed(a, k)) && k < |ts| && ts[k] == Line
    requires PNegation(ts, k + 1) == Err(e)
    ensures PImplication(ts, 0) == Err(e)
  {
    LiftConjunction(ts, 0, a, k);
    ErrorUp(ts, k + 1, e);
    assert DisjLoop(ts, a, k) == Err(e);
    assert PDisjunction(ts, 0) == Err(e);
  }

  /** "->" at the very end leaves the right operand of the implication missing. */
  lemma DanglingArrow(ts: seq<Token>, a: Formula, k: nat, e: FormulaError)
    requires PNegation(ts, 0) == Ok(Parsed(a, k)) && k < |ts| && ts[k] == Arrow
    requires PNegation(ts, k + 1) == Err(e)
    ensures PImplication(ts, 0) == Err(e)
  {
    LiftTwo(ts, 0, a, k);
    ErrorUp(ts, k + 1, e);
    assert ImplLoop(ts, a, k) == Err(e);
  }

  /** With no tokens, or with an operator and nothing after it, an expression is expected at the end. */
  lemma MissingOperand(a: Formula, op: Token)
    requires WellNamed(a) && (op == Ampersand || op == Line || op == Arrow)
    ensures ParseTokens([]) == Err(ExpectedExpression(None))
    ensures ParseTokens(Tokens(a) + [op]) == Err(ExpectedExpression(None))
  {
    var e := ExpectedExpression(None);
    ErrorUp([], 0, e);
    var ts := Tokens(a) + [op];
    UnitFirst(a, [op]);
    var k := |Tokens(a)|;
    assert PNegation(ts, k + 1) == Err(e);
    if op == Ampersand {
      DanglingAmpersand(ts, a, k, e);
    } else if op == Line {
      DanglingLine(ts, a, k, e);
    } else {
      DanglingArrow(ts, a, k, e);
    }
  }

  /** A token that cannot begin a formula is reported as found where an expression was expected. */
  lemma UnexpectedToken(rest: seq<Token>)
    ensures ParseTokens([RightParen] + rest) == Err(ExpectedExpression(Some(RightParen)))
  {
    var ts := [RightParen] + rest;
    assert ts[0] == RightParen;
    assert !VariableText(RightParen) by { assert !IsAlphanumeric(RightParen[0]); }
    assert PPrimary(ts, 0) == Err(ExpectedExpression(Some(RightParen)));
    ErrorUp(ts, 0, ExpectedExpression(Some(RightParen)));
  }
}
