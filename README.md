# Sequent Calculus Solver — a verified Dafny model

This project models the logic core of SequentCalculusSolver, a TypeScript decision
procedure for classical propositional logic, and proves properties of it. The model
covers four parts.

- **Formulas and their text.**
  - The seven-variant formula tree.
  - The character lexer and the recursive-descent parser with their precedence and
    left folding.
  - The three printers: fully bracketed, bracket-flattening and variant-name.
  - Sequent printing and the sequent parser.
- **Semantics.**
  - The evaluator with its short-circuiting and its missing-variable error.
  - The variable collector.
  - The truth-table enumerator with its in-place binary counter.
- **Normal forms.**
  - Implication removal.
  - Syntactic and semantic DNF and CNF.
  - Syntactic NNF.
  - The `NormalFormConverter` class.
- **Sequent calculus and proof search.**
  - Weakening, Exchange and the eight Left/Right rules.
  - `hasConnectiveFormula`, `findAxiom`, `moveFormula` and `deriveAxiom`.
  - The `ProofTree` class, whose `solve` grows the proof tree in place.
  - `toString`, `getBFSString` and `height`.

Formulas are a `datatype`, and a visitor becomes a `match`. Every exception the source
throws becomes the `Err` case of a `Result`, or the `Fail` case of an `Outcome`.

Each operation that changes state or loops is modelled imperatively:

- the lexer `Scan`;
- the `Parser` class with its token cursor;
- `VariableCollector.AddValues`;
- the `TruthTable` class;
- `NextInterpretation`, which works in place on an `array`;
- the semantic normal-form folds;
- the push/pop string builders of the printers and of `Sequent.toString`;
- the `NormalFormConverter` class;
- the `ProofTree` class.

Each such method is proved equal to a reference function on values. The properties are
proved as lemmas about those functions:

- **Sequent calculus.** Every rule is sound. Every propositional rule lowers the number
  of connectives and keeps the sequent's truth under every assignment.
- **Proof search, sound and complete.** `solve` succeeds exactly on the valid sequents
  without ⊤ and ⊥.
  - Its tree is then a well-formed proof of the sequent. Every leaf is a one-variable
    axiom.
  - It decomposes antecedent formulas first.
- **Semantics of the normal forms.** The converters keep the truth value wherever the
  code is right.
- **Round trips.** Writing a formula fully bracketed and parsing it gives it back. The
  same holds for sequents.

Files, one module each:

- `formulas.dfy`, `truth_value_assigner.dfy`, `variable_collector.dfy`, `copy_creator.dfy`
- `truth_table_creator.dfy`
- `implication_remover.dfy`, `nf_converter_strategy.dfy`, `nf_semantic.dfy`,
  `normal_form_converter.dfy`
- `connective_printer.dfy`, `ast_printer.dfy`, `formula_printer.dfy`
- `formula_scanner.dfy`, `formula_parser.dfy`
- `sequent.dfy`, `sequent_parser.dfy`, `sequent_rules.dfy`
- `proof_search.dfy`: the search as functions on values.
- `sequent_solver.dfy`: the `ProofTree` class.
- `wrappers.dfy`: `Option`, `Result` and `Outcome`.

Where the comments and the code disagree, the model follows the code.

- **Move-formula comments.**
  - The comments on `moveFormulaOutside` say it moves the formula to the highest index.
    The code moves it to index 0 (`src/Logic/Sequents/SequentRules.ts:262-312`).
  - The comments on `moveFormulaInside` say it moves the formula to index 0. The code
    moves it to the last index.
  - `ProofSearch.MoveOutside`, `ProofSearch.MoveInside` and `SequentSolver.MoveFormula`
    follow the code.
- **Grammar comment.** The comment reads `And -> Neg & Neg`. The code loops and folds any
  number of operands to the left (`src/Logic/Formulas/FormulaParser.ts:116` and `147-154`).
- **Variables-only checks.** The `.every` callbacks in `findAxiom` and `deriveAxiom`
  return `undefined`, so they inspect only index 0 of each cedent. The model does the
  same.
  - Inside `solve` this is never visible. Both run only once `hasConnectiveFormula` has
    found no compound formula, and it throws on ⊤ and ⊥.
- **Rule table comments.** The tables over the rules contain slips. The right
  conjunction rule is drawn with `phi -> psi`, and the right implication premise with
  `Delta. psi`. The premises follow the code.

## Model

| member | source | states |
|---|---|---|
| Formulas.IsVariableText | src/Logic/Formulas/Formulas.ts:63-82 | true exactly for a string whose characters are all A–Z, a–z or 0–9, the empty string included; false for a missing token (`undefined`) |
| TruthValues.Eval | src/Logic/Formulas/FormulaUtils/TruthValueAssigner.ts:24-47 | a failure names a variable of the formula that the map lacks; a map covering all the formula's variables never fails |
| TruthValues.EvalSound | src/Logic/Formulas/FormulaUtils/TruthValueAssigner.ts:28-46 | a value the evaluator returns is the classical value (→ as ¬l ∨ r, ∧, ∨, ¬, ⊤ true, ⊥ false) under every total assignment extending the map |
| TruthValues.ShortCircuit | src/Logic/Formulas/FormulaUtils/TruthValueAssigner.ts:28-36 | a false left operand decides → and ∧, a true one decides ∨, whatever the right operand (even an unassigned variable) |
| VariableCollector.CollectVariables | src/Logic/Formulas/FormulaUtils/VariableCollector.ts:5-21 | the collector's loops give exactly the reference list `Variables(f)` |
| VariableCollector.AddValues | src/Logic/Formulas/FormulaUtils/VariableCollector.ts:6-11 | the `for` loop adding the right set's names into the left set gives `AddAll(left, right)` |
| VariableCollector.AddAllContents | src/Logic/Formulas/FormulaUtils/VariableCollector.ts:9 | adding keeps the left names first, holds the union of both sides, and never adds a name twice |
| VariableCollector.VariablesCorrect | src/Logic/Formulas/FormulaUtils/VariableCollector.ts:5-21 | the result holds exactly the variables occurring in the formula, each once, with the left operand's names first; constants give none, negation passes its operand's through |
| VariableCollector.VariablesIn | src/Logic/Formulas/FormulaUtils/VariableCollector.ts:5-21 | a name is in the result exactly when it occurs in the formula |
| CopyCreator.Copy | src/Logic/Formulas/FormulaUtils/CopyCreator.ts:25-34 | the copy is total over the seven variants and equal to the input |
| ImplicationRemover.RemoveImplications | src/Logic/Formulas/FormulaUtils/Converters/ImplicationRemover.ts:4-24 | the output has no implication and the same variables and constants; an implication-free input comes back unchanged |
| ImplicationRemover.RemoveImplicationsSem | src/Logic/Formulas/FormulaUtils/Converters/ImplicationRemover.ts:5-9 | a → b rewritten as ¬a′ ∨ b′ keeps the truth value under every assignment |
| ImplicationRemover.RemoveImplicationsEquivalent | src/Logic/Formulas/FormulaUtils/Converters/ImplicationRemover.ts:4-24 | the rewrite is equivalent to the input |
| ConnectivePrinter.VariantIndex | src/Logic/Formulas/FormulaUtils/ConnectivePrinter.ts:30-52 | only the root variant is inspected, and it picks a position of the `connectives` list |
| ConnectivePrinter.ConnectiveName | src/Logic/Formulas/FormulaUtils/ConnectivePrinter.ts:21-22 | the printed name is always a member of the `connectives` list |
| ConnectivePrinter.ConnectiveNameDistinct | src/Logic/Formulas/FormulaUtils/ConnectivePrinter.ts:31-51 | two formulas get the same name exactly when their root variants agree |
| AstPrinter.GroupText | src/Logic/Formulas/FormulaUtils/ASTPrinter.ts:34-41 | the loop pushing each operand after a space gives "(" + op + " a b … " + ")" |
| AstPrinter.AstBalanced | src/Logic/Formulas/FormulaUtils/ASTPrinter.ts:25-63 | with alphanumeric names no prefix of the output closes more brackets than it opens, they balance at the end, and each connective node adds exactly one pair |
| AstPrinter.GroupBalanced | src/Logic/Formulas/FormulaUtils/ASTPrinter.ts:34-41 | a group over balanced operands is balanced and adds one "(" |
| FormulaPrinter.ConjOperands | src/Logic/Formulas/FormulaUtils/FormulaPrinter.ts:79-87 | `conjunctiveCollector` gives the non-conjunction operands of the maximal ∧-chain, at least two for a conjunction, the node itself otherwise |
| FormulaPrinter.DisjOperands | src/Logic/Formulas/FormulaUtils/FormulaPrinter.ts:88-96 | `disjunctiveCollector`, the same for ∨-chains |
| FormulaPrinter.GroupText | src/Logic/Formulas/FormulaUtils/FormulaPrinter.ts:40-52 | the push/pop builder gives the operands joined by " op " in one bracket pair; one operand follows the operator directly; none leaves ")" |
| FormulaPrinter.PopPieces | src/Logic/Formulas/FormulaUtils/FormulaPrinter.ts:46-48 | the three pops remove exactly the trailing " op " |
| FormulaPrinter.PiecesText | src/Logic/Formulas/FormulaUtils/FormulaPrinter.ts:43-48 | the operand texts pushed with " op " after each, the last separator popped, read as "(" and the operands joined by " op " |
| FormulaPrinter.ConjOperandsSem | src/Logic/Formulas/FormulaUtils/FormulaPrinter.ts:79-87 | a conjunction holds exactly when every operand of its chain holds |
| FormulaPrinter.DisjOperandsSem | src/Logic/Formulas/FormulaUtils/FormulaPrinter.ts:88-96 | a disjunction holds exactly when some operand of its chain holds |
| FormulaPrinter.ConjunctionReassociates | src/Logic/Formulas/FormulaUtils/FormulaPrinter.ts:56-58 | (x ∧ y) ∧ z and x ∧ (y ∧ z) print the same text |
| FormulaPrinter.DisjunctionReassociates | src/Logic/Formulas/FormulaUtils/FormulaPrinter.ts:59-61 | (x ∨ y) ∨ z and x ∨ (y ∨ z) print the same text |
| FormulaPrinter.CollectorStops | src/Logic/Formulas/FormulaUtils/FormulaPrinter.ts:79-96 | a collector stops at a node of the other variant, which keeps its own brackets |
| FormulaPrinter.ImplicationExample | src/Logic/Formulas/FormulaUtils/FormulaPrinter.ts:53-55 | A → B prints as "(A → B)" |
| FormulaScanner.Scan | src/Logic/Formulas/FormulaParser.ts:42-105 | the `scan` loop gives exactly the reference lexer `Lex` |
| FormulaScanner.ScanStep | src/Logic/Formulas/FormulaParser.ts:64-103 | one pass of the switch with `peek`/`advance` is the reference step at that index |
| FormulaScanner.ScanVariable | src/Logic/Formulas/FormulaParser.ts:55-60 | `variable()` reads the alphanumeric run from the index and stops just after it |
| FormulaScanner.RunLengthMaximal | src/Logic/Formulas/FormulaParser.ts:55-60 | a variable token is alphanumeric throughout and cannot be extended |
| FormulaScanner.StepAtProps | src/Logic/Formulas/FormulaParser.ts:64-101 | an emitted token is an operator or a non-empty alphanumeric run; a rejected character is the one at the index and cannot start a token |
| FormulaScanner.LexTokensValid | src/Logic/Formulas/FormulaParser.ts:42-105 | every token produced is valid |
| FormulaScanner.LexErrorChar | src/Logic/Formulas/FormulaParser.ts:98-101 | a lex error names a character of the text that cannot start a token |
| FormulaScanner.LexUnlex | src/Logic/Formulas/FormulaParser.ts:42-105 | lexing valid tokens written out with blanks gives the tokens back (blanks produce no token) |
| FormulaScanner.ArrowExample | src/Logic/Formulas/FormulaParser.ts:76-83 | "A->B" lexes as A, one Arrow, B |
| FormulaScanner.MinusExample | src/Logic/Formulas/FormulaParser.ts:76-83 | a "-" not followed by ">" is Minus: "--A" lexes as Minus, Minus, A |
| FormulaScanner.DashToken | src/Logic/Formulas/FormulaParser.ts:76-83 | every "-" is the Arrow over two characters exactly when ">" follows it, and otherwise Minus over one |
| FormulaScanner.ConstantOrVariable | src/Logic/Formulas/FormulaParser.ts:90-97 | "T" alone is the Truth token while "Tom" is one variable token |
| FormulaScanner.ConstantToken | src/Logic/Formulas/FormulaParser.ts:90-97 | a "T" or "F" is the one-character constant token exactly when no alphanumeric character follows it, and otherwise begins a longer variable token |
| FormulaScanner.UnexpectedCharacterReported | src/Logic/Formulas/FormulaParser.ts:98-101 | any other character is reported by name, even after valid tokens |
| FormulaParser.PImplication | src/Logic/Formulas/FormulaParser.ts:131-138 | a successful parse consumes at least one token, and an error is a parse error |
| FormulaParser.PDisjunction | src/Logic/Formulas/FormulaParser.ts:139-146 | `disjunction()`: a success consumes at least one token, and an error is a parse error |
| FormulaParser.PConjunction | src/Logic/Formulas/FormulaParser.ts:147-154 | `conjunction()`: a success consumes at least one token, and an error is a parse error |
| FormulaParser.PNegation | src/Logic/Formulas/FormulaParser.ts:155-159 | `negation()`: a success consumes at least one token, and an error is a parse error |
| FormulaParser.PPrimary | src/Logic/Formulas/FormulaParser.ts:160-178 | the same for `primary()`: ⊤, ⊥, a bracketed formula or a variable token |
| FormulaParser.Parser.constructor | src/Logic/Formulas/FormulaParser.ts:127-128 | the parser starts at token 0 |
| FormulaParser.Parser.Advance | src/Logic/Formulas/FormulaParser.ts:181-184 | returns the current token and moves past it; at the end it fails and does not move |
| FormulaParser.Parser.Match | src/Logic/Formulas/FormulaParser.ts:185-189 | consumes the current token exactly when it is the given one, and says so |
| FormulaParser.Parser.Implication | src/Logic/Formulas/FormulaParser.ts:131-138 | the loop folding "->" to the left gives the reference parse and leaves the cursor after it |
| FormulaParser.Parser.Disjunction | src/Logic/Formulas/FormulaParser.ts:139-146 | the loop folding "\|" to the left gives the reference parse and leaves the cursor after it |
| FormulaParser.Parser.Conjunction | src/Logic/Formulas/FormulaParser.ts:147-154 | the loop folding "&" to the left gives the reference parse and leaves the cursor after it |
| FormulaParser.Parser.Negation | src/Logic/Formulas/FormulaParser.ts:155-159 | nested prefix "-" gives the reference parse |
| FormulaParser.Parser.Primary | src/Logic/Formulas/FormulaParser.ts:160-178 | gives the reference parse, including its two errors |
| FormulaParser.ParseFormula | src/Logic/Formulas/FormulaParser.ts:192-198 | scanning then parsing from token 0 gives `ParseFormulaText` |
| FormulaParser.ParseTokensOf | src/Logic/Formulas/FormulaParser.ts:192-195 | the bracketed tokens of a formula parse back to it, and leftover tokens that do not continue it with a binary operator are ignored |
| FormulaParser.ParseUnlexed | src/Logic/Formulas/FormulaParser.ts:42-198 | writing a well-named formula fully bracketed and parsing the text gives the formula back |
| FormulaParser.UnitParse | src/Logic/Formulas/FormulaParser.ts:155-178 | the bracketed tokens of a formula, negations nested, parse at the negation level to exactly that formula |
| FormulaParser.ImplicationGroupsLeft | src/Logic/Formulas/FormulaParser.ts:131-138 | a -> b -> c parses as (a -> b) -> c |
| FormulaParser.VariablesGroupLeft | src/Logic/Formulas/FormulaParser.ts:131-138 | x -> y -> z over variable names parses as Implication(Implication(x, y), z) |
| FormulaParser.ConjunctionGroupsLeft | src/Logic/Formulas/FormulaParser.ts:147-154 | a & b & c parses as (a & b) & c |
| FormulaParser.ConjunctionBindsTighterRight | src/Logic/Formulas/FormulaParser.ts:139-154 | a \| b & c parses as a \| (b & c) |
| FormulaParser.ConjunctionBindsTighterLeft | src/Logic/Formulas/FormulaParser.ts:139-154 | a & b \| c parses as (a & b) \| c |
| FormulaParser.DisjunctionGroupsLeft | src/Logic/Formulas/FormulaParser.ts:139-146 | "a \| b \| c" parses as (a \| b) \| c over negation-level operands |
| FormulaParser.DisjunctionBindsTighterLeft | src/Logic/Formulas/FormulaParser.ts:131-146 | "a \| b -> c" parses as (a \| b) -> c |
| FormulaParser.DisjunctionBindsTighterRight | src/Logic/Formulas/FormulaParser.ts:131-146 | "a -> b \| c" parses as a -> (b \| c) |
| FormulaParser.ErrorUp | src/Logic/Formulas/FormulaParser.ts:131-159 | an error at the negation level is the error of every level above |
| FormulaParser.UnclosedBracket | src/Logic/Formulas/FormulaParser.ts:166-169 | "(" followed by a formula and no ")" fails with `Unclosed` |
| FormulaParser.DanglingAmpersand | src/Logic/Formulas/FormulaParser.ts:147-154 | an "&" whose right operand fails makes the whole parse fail with that error |
| FormulaParser.DanglingLine | src/Logic/Formulas/FormulaParser.ts:139-146 | the same for "\|" |
| FormulaParser.DanglingArrow | src/Logic/Formulas/FormulaParser.ts:131-138 | the same for "->" |
| FormulaParser.MissingOperand | src/Logic/Formulas/FormulaParser.ts:175 | no tokens, or an operator at the end, fails expecting an expression at the end |
| FormulaParser.UnexpectedToken | src/Logic/Formulas/FormulaParser.ts:175 | a token that cannot begin a formula is reported as found where an expression was expected |
| TruthTableCreator.Lookup | src/Logic/Formulas/FormulaUtils/TruthTableCreator.ts:31-36 | `find`: succeeds exactly when `areSameInterpretations(query, row)` holds for some row, and then gives the first such row's value |
| TruthTableCreator.RepeatedNameFound | src/Logic/Formulas/FormulaUtils/TruthTableCreator.ts:31-33 | the comparison puts the query first, so the query [a↦T, a↦T] finds the row [a↦T, b↦F] although that row does not match it |
| TruthTableCreator.TruthTable.constructor | src/Logic/Formulas/FormulaUtils/TruthTableCreator.ts:18 | a new table is empty |
| TruthTableCreator.TruthTable.Has | src/Logic/Formulas/FormulaUtils/TruthTableCreator.ts:74-79 | the loop answers whether some row has the same interpretation |
| TruthTableCreator.TruthTable.AddMapping | src/Logic/Formulas/FormulaUtils/TruthTableCreator.ts:60-66 | appends the row and returns true exactly when its interpretation was absent; otherwise leaves the table alone |
| TruthTableCreator.TruthTable.GetValue | src/Logic/Formulas/FormulaUtils/TruthTableCreator.ts:31-36 | the value of the first row that the query matches, the query compared first; fails when none matches |
| TruthTableCreator.Next | src/Logic/Formulas/FormulaUtils/TruthTableCreator.ts:110-121 | the counter step keeps the length |
| TruthTableCreator.NextInterpretation | src/Logic/Formulas/FormulaUtils/TruthTableCreator.ts:110-121 | the countdown loop overwriting the array's slots leaves exactly `Next` of the old contents |
| TruthTableCreator.CarryStops | src/Logic/Formulas/FormulaUtils/TruthTableCreator.ts:113-116 | at the rightmost false slot, setting it true completes the successor |
| TruthTableCreator.CarryMoves | src/Logic/Formulas/FormulaUtils/TruthTableCreator.ts:117-118 | a trailing true slot becomes false and the carry moves left |
| TruthTableCreator.NextOfCopy | src/Logic/Formulas/FormulaUtils/TruthTableCreator.ts:132 | stepping a fresh copy gives `Next` of the interpretation |
| TruthTableCreator.Row | src/Logic/Formulas/FormulaUtils/TruthTableCreator.ts:126-127 | row n has the variables' names in collector order |
| TruthTableCreator.NextRow | src/Logic/Formulas/FormulaUtils/TruthTableCreator.ts:110-121 | the counter is binary increment, last slot least significant: it takes row n to row n + 1, and the last row back to row 0 |
| TruthTableCreator.AllTrueWraps | src/Logic/Formulas/FormulaUtils/TruthTableCreator.ts:112-120 | the all-true interpretation wraps around to all false |
| TruthTableCreator.RowAnyTrue | src/Logic/Formulas/FormulaUtils/TruthTableCreator.ts:134 | only row 0 is all false, so the `do…while` test stops exactly after the last row |
| TruthTableCreator.RowsDiffer | src/Logic/Formulas/FormulaUtils/TruthTableCreator.ts:90-92 | over distinct names, two different rows are never the same interpretation |
| TruthTableCreator.EvalRow | src/Logic/Formulas/FormulaUtils/TruthTableCreator.ts:129-131 | the evaluator never fails on a row and gives the classical value under it |
| TruthTableCreator.GetTruthTable | src/Logic/Formulas/FormulaUtils/TruthTableCreator.ts:123-136 | the enumeration builds exactly `Table(f)`: 2^k rows for k variables, in counter order from all false |
| TruthTableCreator.AppendRow | src/Logic/Formulas/FormulaUtils/TruthTableCreator.ts:131 | one pass of the loop adds row `count` with its value |
| TruthTableCreator.CounterStep | src/Logic/Formulas/FormulaUtils/TruthTableCreator.ts:132-134 | the exit test fails exactly after the last row, otherwise the counter gives the next row |
| TruthTableCreator.TableGrows | src/Logic/Formulas/FormulaUtils/TruthTableCreator.ts:131 | each new row is absent from the earlier ones, so `addMapping` always adds it |
| NFConverterStrategy.Dnf | src/Logic/Formulas/FormulaUtils/Converters/NFConverterStrategy.ts:12-80 | syntactic DNF fails exactly on implications and constants; its result is in NNF, over no new variable, and no heavier than the input (the termination measure); with the negated conjunction re-converted the result is in DNF |
| NFConverterStrategy.Distribute | src/Logic/Formulas/FormulaUtils/Converters/NFConverterStrategy.ts:19-46 | distributing over the converted right operand first, then the left, and re-converting keeps NNF (DNF when re-converting) |
| NFConverterStrategy.Negated | src/Logic/Formulas/FormulaUtils/Converters/NFConverterStrategy.ts:50-67 | dropping double negations and applying De Morgan keeps NNF |
| NFConverterStrategy.DnfSem | src/Logic/Formulas/FormulaUtils/Converters/NFConverterStrategy.ts:19-67 | a successful conversion keeps the truth value under every assignment |
| NFConverterStrategy.DistributeSem | src/Logic/Formulas/FormulaUtils/Converters/NFConverterStrategy.ts:23-44 | distribution keeps the conjunction's truth value |
| NFConverterStrategy.NegatedSem | src/Logic/Formulas/FormulaUtils/Converters/NFConverterStrategy.ts:50-67 | the negation case gives the negated truth value |
| NFConverterStrategy.DnfEquivalent | src/Logic/Formulas/FormulaUtils/Converters/NFConverterStrategy.ts:12-80 | a successful conversion is equivalent to its input |
| NFConverterStrategy.DnfKeepsDnf | src/Logic/Formulas/FormulaUtils/Converters/NFConverterStrategy.ts:19-70 | a formula already in DNF comes back unchanged |
| NFConverterStrategy.NegatedDisjunctionNotDistributed | src/Logic/Formulas/FormulaUtils/Converters/NFConverterStrategy.ts:56-60 | as written, ¬((A ∧ B) ∨ C) gives (¬A ∨ ¬B) ∧ ¬C, which is not in DNF; re-converting gives (¬A ∧ ¬C) ∨ (¬B ∧ ¬C) |
| NFConverterStrategy.AsWrittenNotDnf | src/Logic/Formulas/FormulaUtils/Converters/NFConverterStrategy.ts:56-60 | (¬A ∨ ¬B) ∧ ¬C is not in DNF |
| NFConverterStrategy.NegatedDisjunctionAsWritten | src/Logic/Formulas/FormulaUtils/Converters/NFConverterStrategy.ts:56-60 | as written, ¬((A ∧ B) ∨ C) converts to (¬A ∨ ¬B) ∧ ¬C |
| NFConverterStrategy.NegatedDisjunctionRedone | src/Logic/Formulas/FormulaUtils/Converters/NFConverterStrategy.ts:56-60 | converting the De Morgan conjunction again gives (¬A ∧ ¬C) ∨ (¬B ∧ ¬C) |
| NFConverterStrategy.Cnf | src/Logic/Formulas/FormulaUtils/Converters/NFConverterStrategy.ts:120-173 | syntactic CNF succeeds only on constant-free input |
| NFConverterStrategy.DualizeNegates | src/Logic/Formulas/FormulaUtils/Converters/NFConverterStrategy.ts:126-170 | the second step swaps ∧/∨ and negates the truth value when every literal sits under a conjunction |
| NFConverterStrategy.CnfSemWhenShaped | src/Logic/Formulas/FormulaUtils/Converters/NFConverterStrategy.ts:120-173 | on that shape the syntactic CNF succeeds and keeps the truth value |
| NFConverterStrategy.CnfLeavesBareLiterals | src/Logic/Formulas/FormulaUtils/Converters/NFConverterStrategy.ts:140-162 | as written, A ∧ B gives ¬A ∧ ¬B, A gives ¬A, and ¬A and ¬A ∧ B fail throwing A |
| NFConverterStrategy.Dual | src/Logic/Formulas/FormulaUtils/Converters/NFConverterStrategy.ts:126-170 | the corrected second step (every literal flipped) maps DNF to CNF |
| NFConverterStrategy.DualNegates | src/Logic/Formulas/FormulaUtils/Converters/NFConverterStrategy.ts:126-170 | the corrected second step negates the truth value |
| NFConverterStrategy.FlippedNegates | src/Logic/Formulas/FormulaUtils/Converters/NFConverterStrategy.ts:140-162 | flipping a literal negates its truth value |
| NFConverterStrategy.CorrectedCnf | src/Logic/Formulas/FormulaUtils/Converters/NFConverterStrategy.ts:120-173 | the corrected syntactic CNF fails exactly on constants and gives CNF |
| NFConverterStrategy.CorrectedCnfSem | src/Logic/Formulas/FormulaUtils/Converters/NFConverterStrategy.ts:120-173 | the corrected syntactic CNF keeps the truth value |
| NFConverterStrategy.Nnf | src/Logic/Formulas/FormulaUtils/Converters/NFConverterStrategy.ts:208-236 | a negation in the result is over a variable; the corrected strategy (descending) fails exactly on implications and constants and gives NNF |
| NFConverterStrategy.AfterNegation | src/Logic/Formulas/FormulaUtils/Converters/NFConverterStrategy.ts:246-282 | ¬g by De Morgan and double negation leaves negation only over variables |
| NFConverterStrategy.NnfSem | src/Logic/Formulas/FormulaUtils/Converters/NFConverterStrategy.ts:208-287 | as written and corrected, a successful conversion keeps the truth value |
| NFConverterStrategy.AfterNegationSem | src/Logic/Formulas/FormulaUtils/Converters/NFConverterStrategy.ts:246-282 | the conversion of ¬g has the negated truth value of g |
| NFConverterStrategy.NnfKeepsNnf | src/Logic/Formulas/FormulaUtils/Converters/NFConverterStrategy.ts:208-287 | a formula already in NNF comes back unchanged |
| NFConverterStrategy.NnfLeavesOperands | src/Logic/Formulas/FormulaUtils/Converters/NFConverterStrategy.ts:217-222 | as written, the operands of a root ∧/∨ are not visited: a double negation below stays and a constant below is not reported |
| SemanticStrategies.ConjClauseSem | src/Logic/Formulas/FormulaUtils/Converters/NFConverterStrategy.ts:88-98 | a DNF clause holds exactly under the assignments agreeing with its row |
| SemanticStrategies.DisjClauseSem | src/Logic/Formulas/FormulaUtils/Converters/NFConverterStrategy.ts:182-191 | a CNF clause fails exactly under the assignments agreeing with its row |
| SemanticStrategies.ConjClause | src/Logic/Formulas/FormulaUtils/Converters/NFConverterStrategy.ts:88-98 | the row's literals joined by ∧ form a DNF clause |
| SemanticStrategies.DisjClause | src/Logic/Formulas/FormulaUtils/Converters/NFConverterStrategy.ts:182-191 | the row's negated literals joined by ∨ form a CNF clause |
| SemanticStrategies.DisjOfClauses | src/Logic/Formulas/FormulaUtils/Converters/NFConverterStrategy.ts:103-108 | the rows' clauses joined by ∨ are in DNF |
| SemanticStrategies.ConjOfClauses | src/Logic/Formulas/FormulaUtils/Converters/NFConverterStrategy.ts:197-203 | the rows' clauses joined by ∧ are in CNF |
| SemanticStrategies.DisjOfClausesSem | src/Logic/Formulas/FormulaUtils/Converters/NFConverterStrategy.ts:103-108 | the disjunction of the rows' clauses holds exactly when the assignment agrees with some row |
| SemanticStrategies.ConjOfClausesSem | src/Logic/Formulas/FormulaUtils/Converters/NFConverterStrategy.ts:197-203 | the conjunction of the rows' clauses holds exactly when the assignment agrees with no row |
| SemanticStrategies.RowsWithSound | src/Logic/Formulas/FormulaUtils/Converters/NFConverterStrategy.ts:102 | every filtered interpretation is that of a row with the wanted value |
| SemanticStrategies.RowsWithComplete | src/Logic/Formulas/FormulaUtils/Converters/NFConverterStrategy.ts:102 | every row with the wanted value is kept by the filter |
| SemanticStrategies.TableCovers | src/Logic/Formulas/FormulaUtils/TruthTableCreator.ts:126-134 | the table has a row for every assignment, with the formula's value under it |
| SemanticStrategies.RowValue | src/Logic/Formulas/FormulaUtils/TruthTableCreator.ts:126-134 | a row agreeing with an assignment gives the formula the value that assignment gives it |
| SemanticStrategies.SmallTable | src/Logic/Formulas/FormulaUtils/Converters/NFConverterStrategy.ts:99-101 | the table has at most one row exactly when the formula has no variables, and every row has one slot per variable |
| SemanticStrategies.ConstantValue | src/Logic/Formulas/FormulaUtils/Converters/NFConverterStrategy.ts:99-101 | without variables, the value in the single row is the formula's value under every assignment |
| SemanticStrategies.ClauseFromInterpretation | src/Logic/Formulas/FormulaUtils/Converters/NFConverterStrategy.ts:88-98 | the clause loop gives the left-folded ∧ of the row's literals |
| SemanticStrategies.SemanticDnfOf | src/Logic/Formulas/FormulaUtils/Converters/NFConverterStrategy.ts:84-110 | a success on a formula with variables is in DNF |
| SemanticStrategies.SemanticDnf | src/Logic/Formulas/FormulaUtils/Converters/NFConverterStrategy.ts:84-110 | the strategy's loops give `SemanticDnfOf` |
| SemanticStrategies.Disjoin | src/Logic/Formulas/FormulaUtils/Converters/NFConverterStrategy.ts:103-108 | the first row's clause alone, or all clauses left-folded by ∨ in row order |
| SemanticStrategies.SemanticDnfSem | src/Logic/Formulas/FormulaUtils/Converters/NFConverterStrategy.ts:84-110 | a successful semantic DNF is equivalent to the input |
| SemanticStrategies.SemanticDnfFails | src/Logic/Formulas/FormulaUtils/Converters/NFConverterStrategy.ts:102-105 | it fails exactly on an unsatisfiable formula with variables |
| SemanticStrategies.CorrectedSemanticDnf | src/Logic/Formulas/FormulaUtils/Converters/NFConverterStrategy.ts:99-108 | the corrected strategy gives ⊥ where the original fails and agrees elsewhere |
| SemanticStrategies.CorrectedSemanticDnfSem | src/Logic/Formulas/FormulaUtils/Converters/NFConverterStrategy.ts:84-110 | the corrected semantic DNF is always equivalent to the input |
| SemanticStrategies.SemanticCnfOf | src/Logic/Formulas/FormulaUtils/Converters/NFConverterStrategy.ts:178-205 | a success is in CNF |
| SemanticStrategies.SemanticCnf | src/Logic/Formulas/FormulaUtils/Converters/NFConverterStrategy.ts:178-205 | the strategy's loops and pops give `SemanticCnfOf` |
| SemanticStrategies.Conjoin | src/Logic/Formulas/FormulaUtils/Converters/NFConverterStrategy.ts:197-203 | the clauses of the rows left-folded by ∧ in row order |
| SemanticStrategies.SemanticCnfSem | src/Logic/Formulas/FormulaUtils/Converters/NFConverterStrategy.ts:178-205 | a successful semantic CNF is equivalent to the input |
| SemanticStrategies.SemanticCnfFails | src/Logic/Formulas/FormulaUtils/Converters/NFConverterStrategy.ts:192-198 | it fails exactly on a formula without variables and on a tautology |
| SemanticStrategies.CorrectedSemanticCnf | src/Logic/Formulas/FormulaUtils/Converters/NFConverterStrategy.ts:192-203 | the corrected strategy agrees with the original wherever that succeeds |
| SemanticStrategies.CorrectedSemanticCnfSem | src/Logic/Formulas/FormulaUtils/Converters/NFConverterStrategy.ts:178-205 | the corrected semantic CNF is always equivalent to the input |
| NFConverter.ConvertSem | src/Logic/Formulas/FormulaUtils/Converters/NFConverterStrategy.ts:12-287 | every strategy except the syntactic CNF keeps the truth value whenever it succeeds |
| NFConverter.NormalFormConverter.constructor | src/Logic/Formulas/FormulaUtils/Converters/NormalFormConverter.ts:26-28 | stores the implication-free rewrite; the strategy defaults to syntactic DNF |
| NFConverter.NormalFormConverter.SetFormula | src/Logic/Formulas/FormulaUtils/Converters/NormalFormConverter.ts:29-31 | replaces the stored formula by the new one's rewrite; the strategy is a constant |
| NFConverter.NormalFormConverter.GetConvertedFormula | src/Logic/Formulas/FormulaUtils/Converters/NormalFormConverter.ts:32-34 | applies the strategy to the stored formula and changes nothing; with syntactic DNF it fails only on a constant |
| NFConverter.ConverterKeepsMeaning | src/Logic/Formulas/FormulaUtils/Converters/NormalFormConverter.ts:24-35 | what a converter returns is equivalent to the original formula, implications included; the default strategy succeeds exactly without constants |
| Sequents.DefaultSequent | src/Logic/Sequents/Sequent.ts:31-34 | the default sequent has both cedents empty |
| Sequents.ToString | src/Logic/Sequents/Sequent.ts:37-57 | the push/pop builder gives the reference text `Text(s)` |
| Sequents.PushInOrder | src/Logic/Sequents/Sequent.ts:41-43 | the `forEach` pushes the antecedent's texts in index order, each followed by ", " |
| Sequents.PushReversed | src/Logic/Sequents/Sequent.ts:50-52 | the countdown loop pushes the succedent's texts from the last index to the first |
| Sequents.PushAntecedent | src/Logic/Sequents/Sequent.ts:41-46 | the antecedent part is its texts joined by ", " and one blank, or nothing |
| Sequents.PushSuccedent | src/Logic/Sequents/Sequent.ts:48-54 | the succedent part is a blank and its texts in reverse order joined by ", ", or nothing |
| Sequents.EmptyText | src/Logic/Sequents/Sequent.ts:46-49 | the empty sequent prints as "⇒" |
| Sequents.ArrowPosition | src/Logic/Sequents/Sequent.ts:41-56 | a blank precedes ⇒ exactly when the antecedent is non-empty, and follows it exactly when the succedent is non-empty |
| Sequents.SuccedentPrintedReversed | src/Logic/Sequents/Sequent.ts:48-54 | printing a stored succedent shows it in reverse, the order it was written in |
| SequentParser.Split | src/Logic/Sequents/SequentParser.ts:9 | `split` gives at least one piece |
| SequentParser.JoinSplit | src/Logic/Sequents/SequentParser.ts:9-12 | joining the pieces of a split gives the text back |
| SequentParser.SplitJoin | src/Logic/Sequents/SequentParser.ts:9-12 | splitting pieces free of the separator after joining them gives the pieces back |
| SequentParser.TrimEmpty | src/Logic/Sequents/SequentParser.ts:14-15 | a fragment is dropped exactly when it is all white space |
| SequentParser.NonBlank | src/Logic/Sequents/SequentParser.ts:14-15 | the filter keeps at most the fragments it is given |
| SequentParser.ParseAll | src/Logic/Sequents/SequentParser.ts:14-15 | parsing every fragment gives one formula per fragment |
| SequentParser.ParseAllSpec | src/Logic/Sequents/SequentParser.ts:14-15 | succeeds exactly when every fragment parses, keeping textual order; otherwise the first failing fragment's error propagates |
| SequentParser.ArrowCountReported | src/Logic/Sequents/SequentParser.ts:9-11 | anything but exactly one "=>" is rejected, and the error reports how many there are |
| SequentParser.NonBlankKeeps | src/Logic/Sequents/SequentParser.ts:14 | fragments that are all non-blank are all kept, in order |
| SequentParser.BlankSideEmpty | src/Logic/Sequents/SequentParser.ts:14-15 | a side of white space and commas gives an empty cedent |
| SequentParser.ParseWrittenList | src/Logic/Sequents/SequentParser.ts:12-14 | formulas written out and joined by "," parse back to the same list |
| SequentParser.ParseWrittenSequent | src/Logic/Sequents/SequentParser.ts:8-16 | a sequent written as antecedent "=>" succedent in display order parses back to itself: the antecedent in textual order, the succedent reversed |
| SequentRules.CopySequent | src/Logic/Sequents/SequentRules.ts:381-386 | a copy of the cedents is the sequent of the cedents themselves |
| SequentRules.Rest | src/Logic/Sequents/SequentRules.ts:41 | `slice(1)` drops index 0, and an empty list stays empty |
| SequentRules.FindRule | src/Logic/Sequents/SequentRules.ts:129-258 | `RuleFinder` gives a propositional rule exactly for a compound formula and throws on variables and constants |
| SequentRules.IsConnective | src/Logic/Sequents/SequentRules.ts:111-119 | `ConnectiveFinder` is true for compound formulas, false for variables, and throws on ⊤ and ⊥ |
| SequentRules.ExchangeRefused | src/Logic/Sequents/SequentRules.ts:64-89 | an exchange at i throws exactly when i ≥ length − 1 |
| SequentRules.ExchangeSwaps | src/Logic/Sequents/SequentRules.ts:64-72 | the left exchange swaps antecedent positions i and i + 1, changes nothing else, and undoes itself |
| SequentRules.RightExchangeSwaps | src/Logic/Sequents/SequentRules.ts:81-89 | the same for the succedent |
| SequentRules.WeakeningDrops | src/Logic/Sequents/SequentRules.ts:40-55 | a weakening always applies with one premise: index 0 of its cedent is gone, the later formulas move down one place, the other cedent is unchanged, and an empty cedent stays empty |
| SequentRules.StructuralRule | src/Logic/Sequents/SequentRules.ts:40-89 | structural rules give one premise whose truth implies the conclusion's; an exchange keeps the truth, the connectives and the constants |
| SequentRules.RuleSound | src/Logic/Sequents/SequentRules.ts:24-258 | every rule is sound: when all premises hold under an assignment, so does the conclusion |
| SequentRules.PropositionalRule | src/Logic/Sequents/SequentRules.ts:148-249 | a rule found for a compound formula at index 0 applies, every premise has fewer connectives, and the premises all hold exactly when the conclusion does |
| SequentRules.LeftImplicationStep | src/Logic/Sequents/SequentRules.ts:149-160 | φ → ψ, Γ ⇒ Δ gives Γ ⇒ φ, Δ and ψ, Γ ⇒ Δ, each smaller, with the same truth |
| SequentRules.RightImplicationStep | src/Logic/Sequents/SequentRules.ts:162-167 | Γ ⇒ φ → ψ, Δ gives φ, Γ ⇒ ψ, Δ |
| SequentRules.LeftConjunctionStep | src/Logic/Sequents/SequentRules.ts:179-186 | φ ∧ ψ, Γ ⇒ Δ gives φ, ψ, Γ ⇒ Δ |
| SequentRules.RightConjunctionStep | src/Logic/Sequents/SequentRules.ts:187-195 | Γ ⇒ φ ∧ ψ, Δ gives Γ ⇒ φ, Δ and Γ ⇒ ψ, Δ |
| SequentRules.LeftDisjunctionStep | src/Logic/Sequents/SequentRules.ts:207-217 | φ ∨ ψ, Γ ⇒ Δ gives φ, Γ ⇒ Δ and ψ, Γ ⇒ Δ |
| SequentRules.RightDisjunctionStep | src/Logic/Sequents/SequentRules.ts:218-223 | Γ ⇒ φ ∨ ψ, Δ gives Γ ⇒ φ, ψ, Δ |
| SequentRules.LeftNegationStep | src/Logic/Sequents/SequentRules.ts:235-242 | ¬φ, Γ ⇒ Δ gives Γ ⇒ φ, Δ |
| SequentRules.RightNegationStep | src/Logic/Sequents/SequentRules.ts:243-248 | Γ ⇒ ¬φ, Δ gives φ, Γ ⇒ Δ |
| SequentRules.LeftRule | src/Logic/Sequents/SequentRules.ts:148-249 | the rule found for a compound formula at antecedent index 0 applies, lowers the connectives and keeps the truth |
| SequentRules.RightRule | src/Logic/Sequents/SequentRules.ts:148-249 | the same for succedent index 0 |
| SequentRules.FindConnectiveSpec | src/Logic/Sequents/SequentRules.ts:349-351 | `findIndex` finds the first compound formula after only variables, reports none when only variables remain, and otherwise throws on a constant |
| SequentRules.HasConnectiveSpec | src/Logic/Sequents/SequentRules.ts:348-354 | the first compound formula of the antecedent, else of the succedent, else "no"; a failure means the sequent holds ⊤ or ⊥ |
| SequentRules.MatchBelowSpec | src/Logic/Sequents/SequentRules.ts:369-371 | the succedent countdown finds the highest index below j with the same name, and none exactly when no such index exists |
| SequentRules.PairBelowSpec | src/Logic/Sequents/SequentRules.ts:368-373 | the pair found has equal names and is the largest in antecedent index, then succedent index; none exactly when no name is shared |
| SequentRules.FindAxiom | src/Logic/Sequents/SequentRules.ts:363-374 | the index-0 checks and the two countdown loops give `FindAxiomOf` |
| ProofSearch.MoveOutsideLeads | src/Logic/Sequents/SequentRules.ts:272-274 | moving outside from index i is a chain of i exchanges |
| ProofSearch.MoveOutsideRule | src/Logic/Sequents/SequentRules.ts:297-312 | exchange k of moving outside swaps positions i − 1 − k and i − k |
| ProofSearch.MoveOutsideCedents | src/Logic/Sequents/SequentRules.ts:297-312 | moving outside leaves the formula at index 0, the ones before it shifted up, and the other cedent alone |
| ProofSearch.MoveInsideLeads | src/Logic/Sequents/SequentRules.ts:286-292 | moving inside is a chain of one exchange per formula after the index |
| ProofSearch.MoveInsideRule | src/Logic/Sequents/SequentRules.ts:297-312 | exchange k of moving inside swaps positions i + k and i + k + 1 |
| ProofSearch.MoveInsideCedents | src/Logic/Sequents/SequentRules.ts:297-312 | moving inside leaves the formula last, the ones after it shifted down, and the other cedent alone |
| ProofSearch.WeakenSpec | src/Logic/Sequents/SequentRules.ts:324-336 | the weakening loops are a chain of weakenings that ends with only the last formula of each cedent |
| ProofSearch.ExchangesKeep | src/Logic/Sequents/SequentRules.ts:297-312 | a chain of exchanges keeps the truth, the connectives and the constants |
| ProofSearch.AxiomMovesSpec | src/Logic/Sequents/SequentSolver.ts:53-60 | the two moves inside are exchanges leaving the two copies of the variable last in their cedents |
| ProofSearch.AxiomLast | src/Logic/Sequents/SequentSolver.ts:53-60 | after the moves, `deriveAxiom` accepts the sequent and its chain ends in a one-variable axiom |
| ProofSearch.AxiomProofSpec | src/Logic/Sequents/SequentSolver.ts:49-61 | on a sequent of variables the "no" case succeeds exactly when a name is in both cedents, else fails with "Can't find proof"; its proof is well formed |
| ProofSearch.VariablesValid | src/Logic/Sequents/SequentSolver.ts:49-52 | a sequent of variables is valid exactly when some variable is in both cedents; otherwise the antecedent's variables true falsify it |
| ProofSearch.AxiomValid | src/Logic/Sequents/SequentSolver.ts:49-61 | an axiom holds under every assignment |
| ProofSearch.WellFormedSound | src/Logic/Sequents/SequentSolver.ts:71-78 | a tree whose every node's rule gives exactly its premises, with axioms at the leaves, proves a valid sequent |
| ProofSearch.DecomposeStep | src/Logic/Sequents/SequentSolver.ts:62-69 | moving the formula outside keeps truth, connectives and constants, and its rule works on the same side, lowers the connectives and keeps the truth |
| ProofSearch.DecomposeResult | src/Logic/Sequents/SequentSolver.ts:62-78 | decomposition succeeds exactly when every premise's search does; its proof is the exchange chain over the rule's node |
| ProofSearch.ChainLeftFirst | src/Logic/Sequents/SequentSolver.ts:62-70 | exchanges and weakenings above a proof that decomposes antecedent formulas first keep that order |
| ProofSearch.SolveSpec | src/Logic/Sequents/SequentSolver.ts:43-79 | `solve` terminates and succeeds exactly on valid sequents without ⊤ and ⊥; its proof is well formed, proves the sequent and decomposes antecedent formulas first; "no proof" means the sequent is not valid |
| ProofSearch.DecomposeSpec | src/Logic/Sequents/SequentSolver.ts:62-78 | the same for the decomposition cases |
| ProofSearch.PremisesValid | src/Logic/Sequents/SequentSolver.ts:71-78 | a sequent with its premises' truth is valid exactly when they all are |
| ProofSearch.ConstantsRefused | src/Logic/Sequents/SequentSolver.ts:43-79 | a sequent holding ⊤ or ⊥ is never proved |
| ProofSearch.HeightSpec | src/Logic/Sequents/SequentSolver.ts:120-122 | a leaf has height 1, otherwise one more than the highest premise |
| ProofSearch.MaxHeightSpec | src/Logic/Sequents/SequentSolver.ts:120-122 | the height of a list of trees is the largest of their heights, and 0 for none |
| ProofSearch.EdgeCount | src/Logic/Sequents/SequentSolver.ts:85-96 | `toString` has one line per premise link: n − 1 for n nodes |
| ProofSearch.DescribeEdges | src/Logic/Sequents/SequentSolver.ts:85-96 | `toString` lists the links depth first, first premise first |
| ProofSearch.BfsLineCount | src/Logic/Sequents/SequentSolver.ts:101-118 | `getBFSString` prints one line per depth: as many as the tree is high |
| ProofSearch.BfsPartsCount | src/Logic/Sequents/SequentSolver.ts:101-118 | it pushes two parts per node and one line break per level |
| ProofSearch.LevelCount | src/Logic/Sequents/SequentSolver.ts:101-118 | a forest has as many levels as it is high |
| ProofSearch.PendingStepLast | src/Logic/Sequents/SequentSolver.ts:110-115 | the turn taking a level's last tree also pushes the line break and goes on with the next level |
| SequentSolver.ProofTree.constructor | src/Logic/Sequents/SequentSolver.ts:29 | a new node is a leaf holding the sequent |
| SequentSolver.ProofTree.Height | src/Logic/Sequents/SequentSolver.ts:120-122 | `height` of the node is the height of the proof it stands for |
| SequentSolver.ProofTree.HeightOfPremises | src/Logic/Sequents/SequentSolver.ts:120-122 | a node's height is one more than its higher premise |
| SequentSolver.ProofTree.ToString | src/Logic/Sequents/SequentSolver.ts:85-96 | `toString` of the node is the description of the proof it stands for |
| SequentSolver.ProofTree.DescribePremises | src/Logic/Sequents/SequentSolver.ts:85-96 | a node's description is, for each premise in turn, the linking line and the premise's own description |
| SequentSolver.ProofTree.BfsString | src/Logic/Sequents/SequentSolver.ts:101-118 | `getBFSString` gives the level-order text of the proof |
| SequentSolver.ProofTree.LevelOrder | src/Logic/Sequents/SequentSolver.ts:105-116 | the queue loop, taking from the end and adding at the front, pushes the levels in order |
| SequentSolver.ProofTree.Solve | src/Logic/Sequents/SequentSolver.ts:43-79 | `solve` succeeds exactly when `ProofSearch.Solve` does, and then the tree grown below the node is its proof; on failure it reports the same error |
| SequentSolver.ProofTree.CloseWithAxiom | src/Logic/Sequents/SequentSolver.ts:49-61 | the "no" case grows exactly `AxiomProof` |
| SequentSolver.ProofTree.Decompose | src/Logic/Sequents/SequentSolver.ts:62-78 | the decomposition cases grow exactly `ProofSearch.Decompose` |
| SequentSolver.ProofTree.ApplyRule | src/Logic/Sequents/SequentSolver.ts:71-78 | premise one is attached and solved, then premise two when there is one |
| SequentSolver.MoveFormula | src/Logic/Sequents/SequentRules.ts:297-312 | the loop adds one new node per exchange, following the plan to the final sequent |
| SequentSolver.MovesPlan | src/Logic/Sequents/SequentRules.ts:297-312 | the moves computed by the search are the plan `moveFormula` follows |
| SequentSolver.Weaken | src/Logic/Sequents/SequentRules.ts:324-336 | the two loops add one new node per weakening until one formula is left per side |
| SequentSolver.DeriveAxiom | src/Logic/Sequents/SequentRules.ts:321-337 | fails exactly when `ProofSearch.DeriveAxiom` does, leaving the node alone; otherwise grows the weakening chain |
| SequentSolver.WeakenIsPlan | src/Logic/Sequents/SequentRules.ts:321-337 | the weakening chain computed by the search is the plan `deriveAxiom` follows |
| SequentSolver.MoveBoth | src/Logic/Sequents/SequentSolver.ts:54-60 | the two moves inside form one chain of exchanges |

## Left out

- The web page, DOM rendering and the `alert`/`console` output are not part of this model: they are UI.
- `Variable.create`, `Truth.create` and `Falsity.create`: the interning map and the singletons only give object identity. A variable is its name here.
- Exact error-message wording is not modelled. Errors are tags that keep what the message reports: the character, the token found, the arrow count, the variable.
- Rule display strings (`toString`, `proofName`) are not modelled. A rule is a tag, and `RuleName` names it.
- The `console.error` on tokens left after a parse is left out. The parsed prefix is returned, as in the source.
- `TruthTable.toString` and the `table` getter's copying are left out. The first is display only. The second has nothing to copy in immutable values.
- CopyCreator.Copy: a deep copy is the identity on immutable values. Sharing and aliasing of formula objects are not modelled.
- Applying a propositional rule to a sequent whose formula at index 0 is of another variant has an extra error tag, `NotPrincipal`. The source cannot reach that case: `RuleFinder` always builds the rule from that formula.
- Indices are `nat`, so negative indices passed to the rules are not modelled.
- SequentSolver.ProofTree.Solve: on failure the contract gives the error but not the partial tree left behind. `solve` throws part-way, and callers discard that tree.
- SequentSolver.MoveFormula, SequentSolver.Weaken and SequentSolver.DeriveAxiom take the plan they follow (the exchange or weakening steps) as ghost parameters, computed by `ProofSearch`.
- NFConverter.NormalFormConverter.GetConvertedFormula and the converter follow the code as written. Four strategies carry the defects listed under Findings; the corrected versions stand beside them.
- The sequent semantics (`Holds`, `Valid`) is added by the model to state soundness and completeness. The source has none.

## Findings

| source | as written | input that shows it | evidently intended | confidence | as-written member | corrected member |
|---|---|---|---|---|---|---|
| src/Logic/Formulas/FormulaUtils/Converters/NFConverterStrategy.ts:56-60 | the De Morgan conjunction of a negated disjunction is returned without being converted again | ¬((A ∧ B) ∨ C) gives (¬A ∨ ¬B) ∧ ¬C, which is not in DNF | convert the new conjunction again, giving (¬A ∧ ¬C) ∨ (¬B ∧ ¬C) | not executed | NFConverterStrategy.NegatedDisjunctionNotDistributed | NFConverterStrategy.Dnf |
| src/Logic/Formulas/FormulaUtils/Converters/NFConverterStrategy.ts:140-162 | syntactic CNF flips only literals directly under a conjunction and throws on a bare variable elsewhere | A ∧ B gives ¬A ∧ ¬B; ¬A fails throwing A | flip every literal, so the result is a CNF equivalent to the input | not executed | NFConverterStrategy.CnfLeavesBareLiterals | NFConverterStrategy.CorrectedCnf |
| src/Logic/Formulas/FormulaUtils/Converters/NFConverterStrategy.ts:102-105 | semantic DNF reads the first satisfying row even when there is none | A ∧ ¬A fails indexing an empty list | return ⊥ for an unsatisfiable formula | not executed | SemanticStrategies.SemanticDnfFails | SemanticStrategies.CorrectedSemanticDnf |
| src/Logic/Formulas/FormulaUtils/Converters/NFConverterStrategy.ts:192-198 | the guard tests for an empty table, which never happens, so no falsifying row or an empty row reaches `pop` | A ∨ ¬A, and ⊥ alone, both fail | return ⊤ for a tautology, and the constant for a formula without variables | not executed | SemanticStrategies.SemanticCnfFails | SemanticStrategies.CorrectedSemanticCnf |
| src/Logic/Formulas/FormulaUtils/Converters/NFConverterStrategy.ts:217-222 | syntactic NNF does not visit the operands of a conjunction or disjunction | ¬¬A ∧ B comes back unchanged, not in NNF | convert the operands too, giving A ∧ B | not executed | NFConverterStrategy.NnfLeavesOperands | NFConverterStrategy.Nnf |
