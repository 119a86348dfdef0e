/**
 * The semantic normal-form strategies: read the formula's truth table and
 * build one clause per satisfying row (DNF) or per falsifying row (CNF).
 */
module SemanticStrategies {
  import opened Wrappers
  import opened Formulas
  import opened TruthValues
  import opened VariableCollector
  import opened TruthTableCreator
  import opened NFConverterStrategy

  // ---------------------------------------------------------------------
  // Clauses
  // ---------------------------------------------------------------------

  /** The DNF strategy's literal: the variable if it is assigned true, else its negation. */
  function DnfLiteral(x: Assignment): Formula {
    if x.value then Variable(x.name) else Negation(Variable(x.name))
  }

  /** The CNF strategy's literal: the negation if the variable is assigned true, else the variable. */
  function CnfLiteral(x: Assignment): Formula {
    if x.value then Negation(Variable(x.name)) else Variable(x.name)
  }

  /** The assignment `a` gives every name of `s` the value `s` assigns it. */
  ghost predicate Agrees(a: string -> bool, s: Interpretation) {
    forall k :: 0 <= k < |s| ==> a(s[k].name) == s[k].value
  }

  /** The DNF clause of a row: its literals as a left-folded conjunction. */
  function ConjClause(s: Interpretation): (r: Formula)
    requires |s| >= 1
    ensures IsConjClause(r)
  {
    if |s| == 1 then DnfLiteral(s[0])
    else Conjunction(ConjClause(s[..|s| - 1]), DnfLiteral(s[|s| - 1]))
  }

  /** The CNF clause of a row: the last literal first, right-nested, as the repeated `pop` builds it. */
  function DisjClause(s: Interpretation): (r: Formula)
    requires |s| >= 1
    ensures IsDisjClause(r)
  {
    if |s| == 1 then CnfLiteral(s[0])
    else Disjunction(CnfLiteral(s[|s| - 1]), DisjClause(s[..|s| - 1]))
  }

  predicate NonEmptyRows(rows: seq<Interpretation>) {
    forall i :: 0 <= i < |rows| ==> |rows[i]| >= 1
  }

  /** The rows' DNF clauses as a left-folded disjunction, in row order. */
  function DisjOfClauses(rows: seq<Interpretation>): (r: Formula)
    requires |rows| >= 1 && NonEmptyRows(rows)
    ensures IsDNF(r)
  {
    if |rows| == 1 then ConjClause(rows[0])
    else Disjunction(DisjOfClauses(rows[..|rows| - 1]), ConjClause(rows[|rows| - 1]))
  }

  /** The rows' CNF clauses as a left-folded conjunction, in row order. */
  function ConjOfClauses(rows: seq<Interpretation>): (r: Formula)
    requires |rows| >= 1 && NonEmptyRows(rows)
    ensures IsCNF(r)
  {
    if |rows| == 1 then DisjClause(rows[0])
    else Conjunction(ConjOfClauses(rows[..|rows| - 1]), DisjClause(rows[|rows| - 1]))
  }

  /** A DNF literal holds where the assignment agrees with it; a CNF literal where it does not. */
  lemma LiteralSem(x: Assignment, a: string -> bool)
    ensures Sem(DnfLiteral(x), a) <==> a(x.name) == x.value
    ensures Sem(CnfLiteral(x), a) <==> a(x.name) != x.value
  {
  }

  lemma {:induction false} ConjClauseSem(s: Interpretation, a: string -> bool)
    requires |s| >= 1
    ensures Sem(ConjClause(s), a) <==> Agrees(a, s)
  {
    LiteralSem(s[|s| - 1], a);
    if |s| > 1 {
      var p := s[..|s| - 1];
      ConjClauseSem(p, a);
      assert forall k :: 0 <= k < |p| ==> p[k] == s[k];
      assert Agrees(a, s) <==> Agrees(a, p) && a(s[|s| - 1].name) == s[|s| - 1].value;
    } else {
      assert Agrees(a, s) <==> a(s[0].name) == s[0].value;
    }
  }

  lemma {:induction false} DisjClauseSem(s: Interpretation, a: string -> bool)
    requires |s| >= 1
    ensures Sem(DisjClause(s), a) <==> !Agrees(a, s)
  {
    LiteralSem(s[|s| - 1], a);
    if |s| > 1 {
      var p := s[..|s| - 1];
      DisjClauseSem(p, a);
      assert forall k :: 0 <= k < |p| ==> p[k] == s[k];
      assert Agrees(a, s) <==> Agrees(a, p) && a(s[|s| - 1].name) == s[|s| - 1].value;
    } else {
      assert Agrees(a, s) <==> a(s[0].name) == s[0].value;
    }
  }

  lemma {:induction false} DisjOfClausesSem(rows: seq<Interpretation>, a: string -> bool)
    requires |rows| >= 1 && NonEmptyRows(rows)
    ensures Sem(DisjOfClauses(rows), a) <==> exists i :: 0 <= i < |rows| && Agrees(a, rows[i])
  {
    var last := |rows| - 1;
    ConjClauseSem(rows[last], a);
    if |rows| > 1 {
      var p := rows[..last];
      DisjOfClausesSem(p, a);
      assert forall i :: 0 <= i < |p| ==> p[i] == rows[i];
    }
  }

  lemma {:induction false} ConjOfClausesSem(rows: seq<Interpretation>, a: string -> bool)
    requires |rows| >= 1 && NonEmptyRows(rows)
    ensures Sem(ConjOfClauses(rows), a) <==> forall i :: 0 <= i < |rows| ==> !Agrees(a, rows[i])
  {
    var last := |rows| - 1;
    DisjClauseSem(rows[last], a);
    if |rows| > 1 {
      var p := rows[..last];
      ConjOfClausesSem(p, a);
      assert forall i :: 0 <= i < |p| ==> p[i] == rows[i];
    }
  }

  // ---------------------------------------------------------------------
  // Selecting rows
  // ---------------------------------------------------------------------

  /** `table.filter(...).map(...)`: the interpretations of the rows whose value is `b`, in row order. */
  function RowsWith(t: seq<Mapping>, b: bool): (r: seq<Interpretation>)
    ensures |r| <= |t|
  {
    if |t| == 0 then []
    else RowsWith(t[..|t| - 1], b) + (if t[|t| - 1].result == b then [t[|t| - 1].interpretation] else [])
  }

  /** Every selected interpretation is that of a row with value `b`. */
  lemma {:induction false} RowsWithSound(t: seq<Mapping>, b: bool, i: nat)
    requires i < |RowsWith(t, b)|
    ensures exists k :: 0 <= k < |t| && t[k].result == b && t[k].interpretation == RowsWith(t, b)[i]
  {
    var p := t[..|t| - 1];
    if i < |RowsWith(p, b)| {
      RowsWithSound(p, b, i);
      var k :| 0 <= k < |p| && p[k].result == b && p[k].interpretation == RowsWith(p, b)[i];
      assert t[k] == p[k];
    }
  }

  /** Every row with value `b` is selected. */
  lemma {:induction false} RowsWithComplete(t: seq<Mapping>, b: bool, k: nat)
    requires k < |t| && t[k].result == b
    ensures exists i :: 0 <= i < |RowsWith(t, b)| && RowsWith(t, b)[i] == t[k].interpretation
  {
    var p := t[..|t| - 1];
    if k < |t| - 1 {
      assert p[k] == t[k];
      RowsWithComplete(p, b, k);
      var i :| 0 <= i < |RowsWith(p, b)| && RowsWith(p, b)[i] == p[k].interpretation;
      assert RowsWith(t, b)[i] == RowsWith(p, b)[i];
    } else {
      assert RowsWith(t, b)[|RowsWith(t, b)| - 1] == t[k].interpretation;
    }
  }

  /** Selected interpretations keep the rows' common length. */
  lemma {:induction false} RowsWithLength(t: seq<Mapping>, b: bool, len: nat)
    requires forall k :: 0 <= k < |t| ==> |t[k].interpretation| == len
    ensures forall i :: 0 <= i < |RowsWith(t, b)| ==> |RowsWith(t, b)[i]| == len
  {
    if |t| > 0 {
      RowsWithLength(t[..|t| - 1], b, len);
    }
  }

  // ---------------------------------------------------------------------
  // Rows of the truth table against assignments
  // ---------------------------------------------------------------------

  /** The number of the row that agrees with `a`: `a`'s values over `vars` read as bits. */
  function Encode(vars: seq<string>, a: string -> bool): nat {
    if |vars| == 0 then 0
    else 2 * Encode(vars[..|vars| - 1], a) + (if a(vars[|vars| - 1]) then 1 else 0)
  }

  /** Every assignment agrees with some row of the enumeration. */
  lemma {:induction false} EncodeRow(vars: seq<string>, a: string -> bool)
    ensures Encode(vars, a) < Pow2(|vars|)
    ensures Agrees(a, Row(vars, Encode(vars, a)))
  {
    if |vars| > 0 {
      var p := vars[..|vars| - 1];
      EncodeRow(p, a);
      var n := Encode(vars, a);
      assert n / 2 == Encode(p, a) && (n % 2 == 1 <==> a(vars[|vars| - 1]));
      var row := Row(vars, n);
      assert row == Row(p, Encode(p, a)) + [Assignment(vars[|vars| - 1], a(vars[|vars| - 1]))];
    }
  }

  /** A row that agrees with `a` on the formula's variables gives the formula the value `a` gives it. */
  lemma RowValue(f: Formula, n: nat, a: string -> bool)
    requires n < Pow2(|Variables(f)|) && Agrees(a, Row(Variables(f), n))
    ensures Sem(f, Valuation(Row(Variables(f), n))) == Sem(f, a)
  {
    var vars := Variables(f);
    var row := Row(vars, n);
    VariablesCorrect(f);
    forall x | x in VarSet(f)
      ensures a(x) == Valuation(row)(x)
    {
      VariablesIn(f, x);
      var p :| 0 <= p < |vars| && vars[p] == x;
      MapOfDistinct(row, p);
    }
    SemLocal(f, a, Valuation(row));
  }

  /** The table has a row for every assignment, with the formula's value under it. */
  lemma TableCovers(f: Formula, a: string -> bool)
    ensures Encode(Variables(f), a) < |Table(f)|
    ensures Agrees(a, Table(f)[Encode(Variables(f), a)].interpretation)
    ensures Table(f)[Encode(Variables(f), a)].result == Sem(f, a)
  {
    var n := Encode(Variables(f), a);
    EncodeRow(Variables(f), a);
    TableEntry(f, n);
    RowValue(f, n, a);
  }

  /** A row the assignment agrees with has the formula's value under the assignment. */
  lemma TableAgrees(f: Formula, k: nat, a: string -> bool)
    requires k < |Table(f)| && Agrees(a, Table(f)[k].interpretation)
    ensures Table(f)[k].result == Sem(f, a)
  {
    TableEntry(f, k);
    RowValue(f, k, a);
  }

  /** Only a formula without variables has a table of at most one row, and then its one row is empty. */
  lemma SmallTable(f: Formula)
    ensures |Table(f)| >= 1
    ensures |Table(f)| <= 1 <==> |Variables(f)| == 0
    ensures forall k :: 0 <= k < |Table(f)| ==> |Table(f)[k].interpretation| == |Variables(f)|
  {
    if |Variables(f)| > 0 {
      assert Pow2(|Variables(f)|) == 2 * Pow2(|Variables(f)| - 1);
    }
  }

  /** Without variables every assignment gives the formula the value of its single row. */
  lemma ConstantValue(f: Formula, a: string -> bool)
    requires |Variables(f)| == 0
    ensures Lookup(Table(f), []) == Ok(Sem(f, a))
  {
    TableEntry(f, 0);
    RowValue(f, 0, a);
  }

  // ---------------------------------------------------------------------
  // Semantic DNF
  // ---------------------------------------------------------------------

  /**
   * `DNFConverterStrategies.semantic` as a value: a table of at most one row
   * gives ⊤ or ⊥; otherwise the disjunction of the satisfying rows' clauses,
   * which fails, as written, when no row satisfies the formula.
   */
  function SemanticDnfOf(f: Formula): (r: Result<Formula, NFError>)
    ensures r.Ok? && |Variables(f)| >= 1 ==> IsDNF(r.value)
  {
    var t := Table(f);
    SmallTable(f);
    if |t| <= 1 then
      match Lookup(t, [])
      case Ok(v) => Ok(if v then Truth else Falsity)
      case Err(_) => Err(RowNotFound)
    else
      var valid := RowsWith(t, true);
      if |valid| == 0 then Err(MissingInterpretation)
      else
        RowsWithLength(t, true, |Variables(f)|);
        Ok(DisjOfClauses(valid))
  }

  /** `getClauseFromInterpretation` of the DNF strategy. */
  method ClauseFromInterpretation(interpretation: Interpretation) returns (clause: Formula)
    requires |interpretation| >= 1
    ensures clause == ConjClause(interpretation)
  {
    if |interpretation| == 1 {
      return DnfLiteral(interpretation[0]);
    }
    clause := Conjunction(DnfLiteral(interpretation[0]), DnfLiteral(interpretation[1]));
    assert interpretation[..2][..1] == interpretation[..1];
    for i := 2 to |interpretation|
      invariant clause == ConjClause(interpretation[..i])
    {
      assert interpretation[..i + 1][..i] == interpretation[..i];
      clause := Conjunction(clause, DnfLiteral(interpretation[i]));
    }
    assert interpretation[..|interpretation|] == interpretation;
  }

  /** `DNFConverterStrategies.semantic.convert`. */
  method SemanticDnf(formula: Formula) returns (r: Result<Formula, NFError>)
    ensures r == SemanticDnfOf(formula)
  {
    var truthTable := GetTruthTable(formula);
    SmallTable(formula);
    if truthTable.Length() <= 1 {
      var value := truthTable.GetValue([]);
      match value
      case Ok(v) => return Ok(if v then Truth else Falsity);
      case Err(_) => return Err(RowNotFound);
    }
    var validInterpretations := RowsWith(truthTable.table, true);
    RowsWithLength(truthTable.table, true, |Variables(formula)|);
    if |validInterpretations| == 0 {
      return Err(MissingInterpretation);
    }
    var convertedFormula := Disjoin(validInterpretations);
    return Ok(convertedFormula);
  }

  /**
   * The joining loop of the DNF strategy: the first row's clause alone, or
   * the clauses of all rows joined left to right by disjunctions.
   */
  method Disjoin(rows: seq<Interpretation>) returns (convertedFormula: Formula)
    requires |rows| >= 1 && NonEmptyRows(rows)
    ensures convertedFormula == DisjOfClauses(rows)
  {
    var first := ClauseFromInterpretation(rows[0]);
    if |rows| == 1 {
      return first;
    }
    var second := ClauseFromInterpretation(rows[1]);
    convertedFormula := Disjunction(first, second);
    assert rows[..2][..1] == rows[..1];
    for i := 2 to |rows|
      invariant convertedFormula == DisjOfClauses(rows[..i])
    {
      var clause := ClauseFromInterpretation(rows[i]);
      assert rows[..i + 1][..i] == rows[..i];
      convertedFormula := Disjunction(convertedFormula, clause);
    }
    assert rows[..|rows|] == rows;
  }

  /** Whenever the semantic DNF succeeds it is equivalent to the input. */
  lemma SemanticDnfSem(f: Formula, a: string -> bool)
    requires SemanticDnfOf(f).Ok?
    ensures Sem(SemanticDnfOf(f).value, a) == Sem(f, a)
  {
    var t := Table(f);
    SmallTable(f);
    if |t| <= 1 {
      ConstantValue(f, a);
    } else {
      var valid := RowsWith(t, true);
      RowsWithLength(t, true, |Variables(f)|);
      DisjOfClausesSem(valid, a);
      if Sem(f, a) {
        TableCovers(f, a);
        RowsWithComplete(t, true, Encode(Variables(f), a));
      }
      if exists i :: 0 <= i < |valid| && Agrees(a, valid[i]) {
        var i :| 0 <= i < |valid| && Agrees(a, valid[i]);
        RowsWithSound(t, true, i);
        var k :| 0 <= k < |t| && t[k].result && t[k].interpretation == valid[i];
        TableAgrees(f, k, a);
      }
    }
  }

  /** No row has the value `b` exactly when no assignment gives the formula the value `b`. */
  lemma RowsWithNone(f: Formula, b: bool)
    ensures |RowsWith(Table(f), b)| == 0 <==> forall a: string -> bool :: Sem(f, a) != b
  {
    var t := Table(f);
    if |RowsWith(t, b)| == 0 {
      forall a: string -> bool
        ensures Sem(f, a) != b
      {
        TableCovers(f, a);
        if Sem(f, a) == b {
          RowsWithComplete(t, b, Encode(Variables(f), a));
        }
      }
    } else {
      RowsWithSound(t, b, 0);
      var k :| 0 <= k < |t| && t[k].result == b && t[k].interpretation == RowsWith(t, b)[0];
      TableEntry(f, k);
    }
  }

  /** The semantic DNF fails exactly on an unsatisfiable formula that has variables. */
  lemma SemanticDnfFails(f: Formula)
    ensures SemanticDnfOf(f).Err? <==> |Variables(f)| >= 1 && forall a: string -> bool :: !Sem(f, a)
  {
    SmallTable(f);
    RowsWithNone(f, true);
    if |Variables(f)| == 0 {
      ConstantValue(f, _ => false);
    }
  }

  /**
   * The semantic DNF as evidently intended: ⊥ when no row satisfies the
   * formula.  It never fails, agrees with the strategy as written wherever
   * that succeeds, and is equivalent to the input.
   */
  function CorrectedSemanticDnf(f: Formula): (r: Formula)
    ensures SemanticDnfOf(f).Ok? ==> r == SemanticDnfOf(f).value
    ensures SemanticDnfOf(f).Err? ==> r == Falsity
  {
    match SemanticDnfOf(f)
    case Ok(g) => g
    case Err(_) => Falsity
  }

  lemma CorrectedSemanticDnfSem(f: Formula, a: string -> bool)
    ensures Sem(CorrectedSemanticDnf(f), a) == Sem(f, a)
  {
    SemanticDnfFails(f);
    if SemanticDnfOf(f).Ok? {
      SemanticDnfSem(f, a);
    }
  }

  // ---------------------------------------------------------------------
  // Semantic CNF
  // ---------------------------------------------------------------------

  /**
   * `CNFConverterStrategies.semantic` as a value: the conjunction of the
   * falsifying rows' clauses.  The empty-table guard never fires, so a
   * formula with no falsifying row fails reading the first one, and a false
   * formula without variables fails popping its empty row.
   */
  function SemanticCnfOf(f: Formula): (r: Result<Formula, NFError>)
    ensures r.Ok? ==> IsCNF(r.value)
  {
    var t := Table(f);
    SmallTable(f);
    if |t| == 0 then
      match Lookup(t, [])
      case Ok(v) => Ok(if v then Truth else Falsity)
      case Err(_) => Err(RowNotFound)
    else
      var invalid := RowsWith(t, false);
      RowsWithLength(t, false, |Variables(f)|);
      if |invalid| == 1 then
        if |invalid[0]| == 0 then Err(MissingAssignment) else Ok(DisjClause(invalid[0]))
      else if |invalid| == 0 then Err(MissingInterpretation)
      else
        assert |Variables(f)| >= 1;
        Ok(ConjOfClauses(invalid))
  }

  /** `CNFConverterStrategies.semantic.convert`; each row's clause is built from the copy the table hands out. */
  method SemanticCnf(formula: Formula) returns (r: Result<Formula, NFError>)
    ensures r == SemanticCnfOf(formula)
  {
    var truthTable := GetTruthTable(formula);
    SmallTable(formula);
    if truthTable.Length() == 0 {
      // The guard for a formula without variables: never taken, that table has one row.
      assert false;
    }
    var invalidInterpretations := RowsWith(truthTable.table, false);
    RowsWithLength(truthTable.table, false, |Variables(formula)|);
    if |invalidInterpretations| == 1 {
      if |invalidInterpretations[0]| == 0 {
        return Err(MissingAssignment);
      }
      return Ok(DisjClause(invalidInterpretations[0]));
    }
    if |invalidInterpretations| == 0 {
      return Err(MissingInterpretation);
    }
    var convertedFormula := Conjoin(invalidInterpretations);
    return Ok(convertedFormula);
  }

  /** The joining loop of the CNF strategy: the clauses of two or more rows, joined left to right by conjunctions. */
  method Conjoin(rows: seq<Interpretation>) returns (convertedFormula: Formula)
    requires |rows| >= 2 && NonEmptyRows(rows)
    ensures convertedFormula == ConjOfClauses(rows)
  {
    convertedFormula := Conjunction(DisjClause(rows[0]), DisjClause(rows[1]));
    assert rows[..2][..1] == rows[..1];
    for i := 2 to |rows|
      invariant convertedFormula == ConjOfClauses(rows[..i])
    {
      assert rows[..i + 1][..i] == rows[..i];
      convertedFormula := Conjunction(convertedFormula, DisjClause(rows[i]));
    }
    assert rows[..|rows|] == rows;
  }

  /** Whenever the semantic CNF succeeds it is equivalent to the input. */
  lemma SemanticCnfSem(f: Formula, a: string -> bool)
    requires SemanticCnfOf(f).Ok?
    ensures Sem(SemanticCnfOf(f).value, a) == Sem(f, a)
  {
    var t := Table(f);
    SmallTable(f);
    var invalid := RowsWith(t, false);
    RowsWithLength(t, false, |Variables(f)|);
    ConjOfClausesSem(invalid, a);
    if !Sem(f, a) {
      TableCovers(f, a);
      RowsWithComplete(t, false, Encode(Variables(f), a));
    }
    if exists i :: 0 <= i < |invalid| && Agrees(a, invalid[i]) {
      var i :| 0 <= i < |invalid| && Agrees(a, invalid[i]);
      RowsWithSound(t, false, i);
      var k :| 0 <= k < |t| && !t[k].result && t[k].interpretation == invalid[i];
      TableAgrees(f, k, a);
    }
  }

  /**
   * The semantic CNF fails exactly on a formula without variables and on a
   * tautology: the guard meant for the first never fires.
   */
  lemma SemanticCnfFails(f: Formula)
    ensures SemanticCnfOf(f).Err? <==> |Variables(f)| == 0 || forall a: string -> bool :: Sem(f, a)
  {
    var t := Table(f);
    var invalid := RowsWith(t, false);
    SmallTable(f);
    RowsWithNone(f, false);
    RowsWithLength(t, false, |Variables(f)|);
    if |Variables(f)| == 0 {
      TableEntry(f, 0);
      assert |t| == 1 && t[..0] == [];
      if !t[0].result {
        RowsWithComplete(t, false, 0);
        assert |invalid| == 1 && |invalid[0]| == 0;
      } else {
        assert |invalid| == 0;
      }
      assert SemanticCnfOf(f).Err?;
    } else {
      assert SemanticCnfOf(f).Err? <==> |invalid| == 0;
    }
  }

  /**
   * The semantic CNF as evidently intended: a formula without variables
   * gives ⊤ or ⊥ by its single row, a tautology gives ⊤.  It never fails,
   * agrees with the strategy as written wherever that succeeds, and is
   * equivalent to the input.
   */
  function CorrectedSemanticCnf(f: Formula): (r: Formula)
    ensures SemanticCnfOf(f).Ok? ==> r == SemanticCnfOf(f).value
  {
    var t := Table(f);
    SmallTable(f);
    if |t| <= 1 then (if t[0].result then Truth else Falsity)
    else
      match SemanticCnfOf(f)
      case Ok(g) => g
      case Err(_) => Truth
  }

  /** A formula without variables has a single row, holding the formula's value under any assignment. */
  lemma SingleRow(f: Formula, a: string -> bool)
    requires |Variables(f)| == 0
    ensures |Table(f)| == 1 && Table(f)[0].result == Sem(f, a)
  {
    TableEntry(f, 0);
    RowValue(f, 0, a);
  }

  lemma CorrectedSemanticCnfSem(f: Formula, a: string -> bool)
    ensures Sem(CorrectedSemanticCnf(f), a) == Sem(f, a)
  {
    SmallTable(f);
    if |Variables(f)| == 0 {
      SingleRow(f, a);
    } else if SemanticCnfOf(f).Ok? {
      SemanticCnfSem(f, a);
    } else {
      SemanticCnfFails(f);
      assert CorrectedSemanticCnf(f) == Truth;
    }
  }
}
