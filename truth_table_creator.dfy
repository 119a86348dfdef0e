/**
 * `getTruthTable`: enumerates every interpretation of a formula's variables by
 * an in-place binary counter and records the formula's value for each.
 */
module TruthTableCreator {
  import opened Wrappers
  import opened Formulas
  import opened TruthValues
  import opened VariableCollector

  /** "`name` is assigned the truth value `value`". */
  datatype Assignment = Assignment(name: string, value: bool)
  type Interpretation = seq<Assignment>
  /** One row of the table: an interpretation and the formula's value under it. */
  datatype Mapping = Mapping(interpretation: Interpretation, result: bool)

  datatype TableError = NotFound

  function Pow2(n: nat): (p: nat)
    ensures p >= 1
  {
    if n == 0 then 1 else 2 * Pow2(n - 1)
  }

  /**
   * `areSameInterpretations`: every assignment of `i1` occurs in `i2` and the
   * lengths agree; the order of the assignments does not matter.
   */
  predicate SameInterpretations(i1: Interpretation, i2: Interpretation) {
    (forall k :: 0 <= k < |i1| ==> i1[k] in i2) && |i1| == |i2|
  }

  /** Some row's interpretation is the same as `i`. */
  predicate InRows(rows: seq<Mapping>, i: Interpretation) {
    exists k :: 0 <= k < |rows| && SameInterpretations(rows[k].interpretation, i)
  }

  /**
   * `find` over the rows: the result of the first row whose interpretation
   * matches. As in `getValue`, the query is the first argument of
   * `SameInterpretations` and the row the second.
   */
  function Lookup(rows: seq<Mapping>, i: Interpretation): (r: Result<bool, TableError>)
    ensures r.Ok? <==> exists k :: 0 <= k < |rows| && SameInterpretations(i, rows[k].interpretation)
    ensures r.Ok? ==> exists k :: (0 <= k < |rows| && SameInterpretations(i, rows[k].interpretation) &&
      r.value == rows[k].result &&
      forall j :: 0 <= j < k ==> !SameInterpretations(i, rows[j].interpretation))
  {
    if |rows| == 0 then Err(NotFound)
    else if SameInterpretations(i, rows[0].interpretation) then Ok(rows[0].result)
    else
      var r := Lookup(rows[1..], i);
      assert forall k :: 1 <= k < |rows| ==> rows[k] == rows[1..][k - 1];
      r
  }

  /**
   * The comparison is not symmetric when a name repeats: a query that repeats
   * one of a row's assignments finds that row, though the row does not find it.
   */
  lemma RepeatedNameFound()
    ensures var row := [Assignment("a", true), Assignment("b", false)];
      var query := [Assignment("a", true), Assignment("a", true)];
      !SameInterpretations(row, query) && Lookup([Mapping(row, false)], query) == Ok(false)
  {
    var row := [Assignment("a", true), Assignment("b", false)];
    var query := [Assignment("a", true), Assignment("a", true)];
    assert row[1] !in query;
    assert SameInterpretations(query, row) by {
      assert query[0] == row[0] && query[1] == row[0];
    }
  }

  class TruthTable {
    var table: seq<Mapping>

    constructor()
      ensures table == []
    {
      table := [];
    }

    /** The number of entries. */
    function Length(): nat
      reads this
    {
      |table|
    }

    predicate Contains(i: Interpretation)
      reads this
    {
      InRows(table, i)
    }

    /** `has`: whether some stored row has the same interpretation as `mapping`. */
    method Has(mapping: Mapping) returns (b: bool)
      ensures b <==> Contains(mapping.interpretation)
    {
      for k := 0 to |table|
        invariant forall j :: 0 <= j < k ==> !SameInterpretations(table[j].interpretation, mapping.interpretation)
      {
        if SameInterpretations(table[k].interpretation, mapping.interpretation) {
          return true;
        }
      }
      return false;
    }

    /** `addMapping`: appends the row unless its interpretation is already present. */
    method AddMapping(mapping: Mapping) returns (added: bool)
      modifies this
      ensures added <==> !old(Contains(mapping.interpretation))
      ensures table == if added then old(table) + [mapping] else old(table)
    {
      var present := Has(mapping);
      if !present {
        table := table + [mapping];
        return true;
      }
      return false;
    }

    /** `getValue`: the result of the first matching row; throws when none matches. */
    method GetValue(i: Interpretation) returns (r: Result<bool, TableError>)
      ensures r == Lookup(table, i)
    {
      var k := 0;
      while k < |table|
        invariant 0 <= k <= |table|
        invariant Lookup(table, i) == Lookup(table[k..], i)
      {
        if SameInterpretations(i, table[k].interpretation) {
          return Ok(table[k].result);
        }
        assert table[k..][1..] == table[k + 1..];
        k := k + 1;
      }
      return Err(NotFound);
    }
  }

  /**
   * The counter step on values: the last assignment is the least significant
   * bit; trailing trues become false and the rightmost false becomes true.
   */
  function Next(s: Interpretation): (r: Interpretation)
    ensures |r| == |s|
  {
    if |s| == 0 then []
    else if !s[|s| - 1].value then s[..|s| - 1] + [Assignment(s[|s| - 1].name, true)]
    else Next(s[..|s| - 1]) + [Assignment(s[|s| - 1].name, false)]
  }

  /** `getNextInterpretation`, overwriting the array's slots from the last one down. */
  method NextInterpretation(interpretation: array<Assignment>)
    modifies interpretation
    ensures interpretation[..] == Next(old(interpretation[..]))
  {
    ghost var s := interpretation[..];
    var i := interpretation.Length - 1;
    assert s[..i + 1] == s;
    while i >= 0
      invariant -1 <= i < interpretation.Length
      invariant interpretation[..i + 1] == s[..i + 1]
      invariant Next(s) == Next(s[..i + 1]) + interpretation[i + 1..]
    {
      ghost var cur := interpretation[..];
      assert cur[i] == s[i] by { assert cur[i] == cur[..i + 1][i]; }
      if !interpretation[i].value {
        CarryStops(s, i, cur);
        interpretation[i] := Assignment(interpretation[i].name, true);
        assert interpretation[..] == cur[i := Assignment(s[i].name, true)];
        return;
      }
      CarryMoves(s, i, cur);
      interpretation[i] := Assignment(interpretation[i].name, false);
      assert interpretation[..] == cur[i := Assignment(s[i].name, false)];
      i := i - 1;
    }
  }

  /** The counter loop stops at a false slot `i`: setting it gives the whole successor. */
  lemma CarryStops(s: Interpretation, i: int, cur: Interpretation)
    requires 0 <= i < |s| == |cur| && !s[i].value
    requires cur[..i + 1] == s[..i + 1]
    requires Next(s) == Next(s[..i + 1]) + cur[i + 1..]
    ensures Next(s) == cur[i := Assignment(s[i].name, true)]
  {
    var prefix := s[..i + 1];
    assert prefix[..i] == cur[..i];
    assert Next(prefix) == prefix[..i] + [Assignment(s[i].name, true)];
  }

  /** The counter loop clears a true slot `i` and carries on to the left. */
  lemma CarryMoves(s: Interpretation, i: int, cur: Interpretation)
    requires 0 <= i < |s| == |cur| && s[i].value
    requires cur[..i + 1] == s[..i + 1]
    requires Next(s) == Next(s[..i + 1]) + cur[i + 1..]
    ensures cur[i := Assignment(s[i].name, false)][..i] == s[..i]
    ensures Next(s) == Next(s[..i]) + cur[i := Assignment(s[i].name, false)][i..]
  {
    var prefix := s[..i + 1];
    assert prefix[..i] == s[..i];
    assert cur[i := Assignment(s[i].name, false)][i..] == [Assignment(s[i].name, false)] + cur[i + 1..];
  }

  /** `getNextInterpretation(interpretation.slice())`: the counter step on a fresh copy. */
  method NextOfCopy(interpretation: Interpretation) returns (next: Interpretation)
    ensures next == Next(interpretation)
  {
    var copy := new Assignment[|interpretation|](i requires 0 <= i < |interpretation| => interpretation[i]);
    assert copy[..] == interpretation;
    NextInterpretation(copy);
    next := copy[..];
  }

  /** Row number `n` of the enumeration: the bits of `n`, most significant first, over `vars`. */
  function Row(vars: seq<string>, n: nat): (r: Interpretation)
    ensures |r| == |vars|
    ensures forall k :: 0 <= k < |vars| ==> r[k].name == vars[k]
  {
    if |vars| == 0 then []
    else Row(vars[..|vars| - 1], n / 2) + [Assignment(vars[|vars| - 1], n % 2 == 1)]
  }

  /** Whether some assignment is true (`interpretation.some(...)`). */
  predicate AnyTrue(s: Interpretation) {
    exists k :: 0 <= k < |s| && s[k].value
  }

  /** `new Map(interpretation)`: later entries win. */
  function MapOf(s: Interpretation): map<string, bool> {
    if |s| == 0 then map[] else MapOf(s[..|s| - 1])[s[|s| - 1].name := s[|s| - 1].value]
  }

  /** The interpretation read as a total assignment; names it lacks are false. */
  function Valuation(s: Interpretation): string -> bool {
    n => if n in MapOf(s) then MapOf(s)[n] else false
  }

  /** The table the enumeration produces: row `n` of the collector's variables, with the formula's value under it. */
  function Table(f: Formula): seq<Mapping> {
    var vars := Variables(f);
    seq(Pow2(|vars|), n requires 0 <= n < Pow2(|vars|) =>
      Mapping(Row(vars, n), Sem(f, Valuation(Row(vars, n)))))
  }

  lemma Halves(n: nat, p: nat)
    requires n < 2 * p
    ensures n / 2 < p
    ensures n % 2 == 0 ==> n + 1 < 2 * p && (n + 1) / 2 == n / 2 && (n + 1) % 2 == 1
    ensures n % 2 == 1 ==> (n + 1) % 2 == 0 && (n + 1) / 2 == n / 2 + 1 && (n + 1 < 2 * p <==> n / 2 + 1 < p)
  {
  }

  /** The row after `n`: `n + 1`, or 0 after the last row. */
  function Succ(n: nat, rows: nat): nat {
    if n + 1 < rows then n + 1 else 0
  }

  /** Incrementing row `n` gives row `n + 1`, wrapping to row 0 after the last. */
  lemma {:induction false} NextRow(vars: seq<string>, n: nat)
    requires n < Pow2(|vars|)
    ensures Next(Row(vars, n)) == Row(vars, Succ(n, Pow2(|vars|)))
  {
    if |vars| > 0 {
      var k := |vars|;
      var p := Pow2(k - 1);
      assert Pow2(k) == 2 * p;
      Halves(n, p);
      if n % 2 == 0 {
        NextRowEven(vars, n);
      } else {
        NextRow(vars[..k - 1], n / 2);
        NextRowOdd(vars, n);
      }
    }
  }

  /** An even row ends in false, so its successor only sets the last bit. */
  lemma NextRowEven(vars: seq<string>, n: nat)
    requires |vars| > 0 && n % 2 == 0
    requires n + 1 < Pow2(|vars|) && (n + 1) / 2 == n / 2 && (n + 1) % 2 == 1
    ensures Next(Row(vars, n)) == Row(vars, n + 1)
  {
    var row := Row(vars, n);
    assert row[..|vars| - 1] == Row(vars[..|vars| - 1], n / 2);
  }

  /** An odd row ends in true: the last bit is cleared and the carry goes into the row above. */
  lemma NextRowOdd(vars: seq<string>, n: nat)
    requires |vars| > 0 && n % 2 == 1 && (n + 1) % 2 == 0 && (n + 1) / 2 == n / 2 + 1
    requires n / 2 < Pow2(|vars| - 1) && Pow2(|vars|) == 2 * Pow2(|vars| - 1)
    requires n + 1 < Pow2(|vars|) <==> n / 2 + 1 < Pow2(|vars| - 1)
    requires Next(Row(vars[..|vars| - 1], n / 2)) == Row(vars[..|vars| - 1], Succ(n / 2, Pow2(|vars| - 1)))
    ensures Next(Row(vars, n)) == Row(vars, Succ(n, Pow2(|vars|)))
  {
    var row := Row(vars, n);
    var v' := vars[..|vars| - 1];
    assert row[..|vars| - 1] == Row(v', n / 2);
    if n + 1 < Pow2(|vars|) {
      assert Row(vars, n + 1) == Row(v', n / 2 + 1) + [Assignment(vars[|vars| - 1], false)];
    } else {
      assert Row(vars, 0) == Row(v', 0) + [Assignment(vars[|vars| - 1], false)];
    }
  }

  /** The all-true interpretation wraps around to the all-false one. */
  lemma {:induction false} AllTrueWraps(s: Interpretation)
    requires forall k :: 0 <= k < |s| ==> s[k].value
    ensures forall k :: 0 <= k < |s| ==> !Next(s)[k].value
  {
    if |s| > 0 {
      AllTrueWraps(s[..|s| - 1]);
    }
  }

  /** Only row 0 is all false. */
  lemma {:induction false} RowAnyTrue(vars: seq<string>, n: nat)
    requires n < Pow2(|vars|)
    ensures AnyTrue(Row(vars, n)) <==> n > 0
  {
    if |vars| > 0 {
      var k := |vars|;
      var v' := vars[..k - 1];
      var row := Row(vars, n);
      RowAnyTrue(v', n / 2);
      assert row[..k - 1] == Row(v', n / 2);
      if AnyTrue(Row(v', n / 2)) {
        var j :| 0 <= j < k - 1 && Row(v', n / 2)[j].value;
        assert row[j].value;
      }
      if AnyTrue(row) {
        var j :| 0 <= j < k && row[j].value;
        if j < k - 1 { assert Row(v', n / 2)[j].value; }
      }
    }
  }

  lemma {:induction false} RowInjective(vars: seq<string>, i: nat, j: nat)
    requires i < Pow2(|vars|) && j < Pow2(|vars|)
    requires Row(vars, i) == Row(vars, j)
    ensures i == j
  {
    if |vars| > 0 {
      var k := |vars|;
      var v' := vars[..k - 1];
      assert Row(vars, i)[..k - 1] == Row(v', i / 2);
      assert Row(vars, j)[..k - 1] == Row(v', j / 2);
      RowInjective(v', i / 2, j / 2);
      assert Row(vars, i)[k - 1].value == (i % 2 == 1);
    }
  }

  /** Over distinct names, two different rows are never the same interpretation. */
  lemma RowsDiffer(vars: seq<string>, i: nat, j: nat)
    requires Distinct(vars)
    requires i < Pow2(|vars|) && j < Pow2(|vars|) && i != j
    ensures !SameInterpretations(Row(vars, i), Row(vars, j))
  {
    var ri, rj := Row(vars, i), Row(vars, j);
    if SameInterpretations(ri, rj) {
      forall p | 0 <= p < |vars|
        ensures ri[p] == rj[p]
      {
        assert ri[p] in rj;
        var q :| 0 <= q < |rj| && rj[q] == ri[p];
        assert vars[q] == vars[p];
      }
      assert ri == rj;
      RowInjective(vars, i, j);
    }
  }

  lemma {:induction false} MapOfKeys(s: Interpretation)
    ensures MapOf(s).Keys == set k | 0 <= k < |s| :: s[k].name
  {
    if |s| > 0 {
      MapOfKeys(s[..|s| - 1]);
    }
  }

  /** With distinct names the map holds each assignment's value. */
  lemma {:induction false} MapOfDistinct(s: Interpretation, p: nat)
    requires forall i, j :: 0 <= i < j < |s| ==> s[i].name != s[j].name
    requires p < |s|
    ensures s[p].name in MapOf(s) && MapOf(s)[s[p].name] == s[p].value
  {
    if p < |s| - 1 {
      MapOfDistinct(s[..|s| - 1], p);
    }
  }

  /**
   * The evaluator never fails on a row of the table, and its value is the
   * classical value under that row.
   */
  lemma EvalRow(f: Formula, n: nat)
    requires n < Pow2(|Variables(f)|)
    ensures Eval(f, MapOf(Row(Variables(f), n))) == Ok(Sem(f, Valuation(Row(Variables(f), n))))
  {
    var row := Row(Variables(f), n);
    MapOfKeys(row);
    forall x | x in VarSet(f)
      ensures x in MapOf(row)
    {
      VariablesIn(f, x);
      var p :| 0 <= p < |Variables(f)| && Variables(f)[p] == x;
      assert row[p].name == x;
    }
    EvalSound(f, MapOf(row), Valuation(row));
  }

  /** `getTruthTable`. */
  method GetTruthTable(formula: Formula) returns (result: TruthTable)
    ensures fresh(result) && result.table == Table(formula)
  {
    var variables := CollectVariables(formula);
    ghost var k := |variables|;
    var interpretation := seq(|variables|, i requires 0 <= i < |variables| => Assignment(variables[i], false));
    AllFalseRow(variables);
    result := new TruthTable();
    ghost var count := 0;
    while true
      invariant 0 <= count < Pow2(k)
      invariant interpretation == Row(variables, count)
      invariant result.table == Table(formula)[..count]
      invariant fresh(result)
      decreases Pow2(k) - count
    {
      AppendRow(result, formula, interpretation, count);
      interpretation := NextOfCopy(interpretation);
      CounterStep(variables, count);
      if !AnyTrue(interpretation) {
        WholeTable(formula, count + 1);
        break;
      }
      count := count + 1;
    }
  }

  /** The body of the loop of `getTruthTable`: row `count` is evaluated and added to the table. */
  method AppendRow(result: TruthTable, formula: Formula, interpretation: Interpretation, ghost count: nat)
    requires count < Pow2(|Variables(formula)|) && interpretation == Row(Variables(formula), count)
    requires result.table == Table(formula)[..count]
    modifies result
    ensures result.table == Table(formula)[..count + 1]
  {
    var assignments := MapOf(interpretation);
    TableGrows(formula, count);
    var value := Eval(formula, assignments);
    var added := result.AddMapping(Mapping(interpretation, value.value));
  }

  /** Once every row has been added, the prefix is the whole table. */
  lemma WholeTable(f: Formula, n: nat)
    requires n == Pow2(|Variables(f)|)
    ensures Table(f)[..n] == Table(f)
  {
  }

  /** The loop's exit test: the counter returns to all false exactly after the last row. */
  lemma CounterStep(vars: seq<string>, n: nat)
    requires n < Pow2(|vars|)
    ensures AnyTrue(Next(Row(vars, n))) ==> n + 1 < Pow2(|vars|) && Next(Row(vars, n)) == Row(vars, n + 1)
    ensures !AnyTrue(Next(Row(vars, n))) ==> n + 1 == Pow2(|vars|)
  {
    NextRow(vars, n);
    RowAnyTrue(vars, Succ(n, Pow2(|vars|)));
  }

  lemma TableEntry(f: Formula, n: nat)
    requires n < Pow2(|Variables(f)|)
    ensures |Table(f)| == Pow2(|Variables(f)|)
    ensures Table(f)[n] == Mapping(Row(Variables(f), n), Sem(f, Valuation(Row(Variables(f), n))))
  {
  }

  /** Row `n` is new to the first `n` rows, and evaluating it extends the table by one entry. */
  lemma TableGrows(f: Formula, n: nat)
    requires n < Pow2(|Variables(f)|)
    ensures Eval(f, MapOf(Row(Variables(f), n))).Ok?
    ensures Table(f)[..n + 1] == Table(f)[..n] + [Mapping(Row(Variables(f), n), Eval(f, MapOf(Row(Variables(f), n))).value)]
    ensures !InRows(Table(f)[..n], Row(Variables(f), n))
  {
    var vars := Variables(f);
    var t := Table(f);
    TableEntry(f, n);
    EvalRow(f, n);
    TakeOneMore(t, n);
    assert !InRows(t[..n], Row(vars, n)) by {
      VariablesCorrect(f);
      forall j | 0 <= j < n
        ensures !SameInterpretations(t[..n][j].interpretation, Row(vars, n))
      {
        TableEntry(f, j);
        RowsDiffer(vars, j, n);
      }
    }
  }

  lemma TakeOneMore(rows: seq<Mapping>, n: nat)
    requires n < |rows|
    ensures rows[..n + 1] == rows[..n] + [rows[n]]
  {
  }

  lemma {:induction false} AllFalseRow(vars: seq<string>)
    ensures Row(vars, 0) == seq(|vars|, i requires 0 <= i < |vars| => Assignment(vars[i], false))
  {
    if |vars| > 0 {
      AllFalseRow(vars[..|vars| - 1]);
    }
  }
}
