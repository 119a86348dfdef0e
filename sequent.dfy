/**
 * `Sequent`: two ordered lists of formulas, the antecedent and the succedent.
 * Index 0 of each cedent is its "outside" position, the one the rules work
 * on; the succedent is stored in reverse of its display order, so printing
 * walks it from the last index to the first.
 */
module Sequents {
  import opened Formulas
  import opened TruthValues
  import opened FormulaPrinter

  datatype Sequent = Sequent(antecedent: seq<Formula>, succedent: seq<Formula>)

  /** What `new Sequent()` builds: both cedents default to empty lists. */
  function DefaultSequent(): (s: Sequent)
    ensures |s.antecedent| == 0 && |s.succedent| == 0
  {
    Sequent([], [])
  }

  const Arrow: string := "\U{21D2}"
  const Separator: string := ", "

  function Reverse<T>(s: seq<T>): (r: seq<T>)
    ensures |r| == |s|
  {
    seq(|s|, i requires 0 <= i < |s| => s[|s| - 1 - i])
  }

  lemma ReverseReverse<T>(s: seq<T>)
    ensures Reverse(Reverse(s)) == s
  {
    assert forall i :: 0 <= i < |s| ==> Reverse(Reverse(s))[i] == s[i];
  }

  /** The printed form of each formula, in index order. */
  function Prints(fs: seq<Formula>): (ps: seq<string>)
    ensures |ps| == |fs|
  {
    seq(|fs|, i requires 0 <= i < |fs| => FormulaPrinter.Print(fs[i]))
  }

  /** The texts joined by ", " (no separator before the first or after the last). */
  function Separated(parts: seq<string>): string {
    if |parts| == 0 then ""
    else if |parts| == 1 then parts[0]
    else Separated(parts[..|parts| - 1]) + Separator + parts[|parts| - 1]
  }

  /**
   * The display text of a sequent: the antecedent in index order, the arrow,
   * the succedent from its last index to its first. A blank stands before the
   * arrow only when the antecedent is non-empty, and after it only when the
   * succedent is non-empty.
   */
  function Text(s: Sequent): string {
    (if |s.antecedent| == 0 then "" else Separated(Prints(s.antecedent)) + " ")
    + Arrow
    + (if |s.succedent| == 0 then "" else " " + Separated(Prints(Reverse(s.succedent))))
  }

  /** The parts end with a separator that, popped, leaves `text`. */
  predicate PendingSeparator(parts: seq<string>, text: string) {
    |parts| > 0 && parts[|parts| - 1] == Separator && Concat(Pop(parts)) == text
  }

  /** Pushing the first text and a separator onto `parts`. */
  lemma FirstPush(parts: seq<string>, x: string)
    ensures PendingSeparator(parts + [x, Separator], Concat(parts) + x)
  {
    assert Pop(parts + [x, Separator]) == parts + [x];
    ConcatPush(parts, x);
  }

  /** Pushing one more text and a separator onto parts that already end with a separator. */
  lemma NextPush(parts: seq<string>, text: string, x: string)
    requires PendingSeparator(parts, text)
    ensures PendingSeparator(parts + [x, Separator], text + Separator + x)
  {
    assert Pop(parts + [x, Separator]) == parts + [x];
    ConcatPush(parts, x);
  }

  lemma SeparatedPush(parts: seq<string>, i: nat)
    requires 0 < i < |parts|
    ensures Separated(parts[..i + 1]) == Separated(parts[..i]) + Separator + parts[i]
  {
    assert parts[..i + 1][..i] == parts[..i];
  }

  lemma SeparatedOne(parts: seq<string>)
    requires |parts| > 0
    ensures Separated(parts[..1]) == parts[0]
  {
    assert parts[..1] == [parts[0]];
  }

  /** One pass of either push loop: text `i` and a separator join the texts before it. */
  lemma PushStep(parts: seq<string>, r: seq<string>, texts: seq<string>, i: nat)
    requires i < |texts|
    requires i == 0 ==> r == parts
    requires i > 0 ==> PendingSeparator(r, Concat(parts) + Separated(texts[..i]))
    ensures PendingSeparator(r + [texts[i], Separator], Concat(parts) + Separated(texts[..i + 1]))
  {
    if i == 0 {
      FirstPush(r, texts[i]);
      SeparatedOne(texts);
    } else {
      NextPush(r, Concat(parts) + Separated(texts[..i]), texts[i]);
      SeparatedPush(texts, i);
    }
  }

  lemma TakeAll(texts: seq<string>)
    ensures texts[..|texts|] == texts
  {
  }

  lemma PrintsReversed(fs: seq<Formula>, i: nat)
    requires i < |fs|
    ensures Prints(Reverse(fs))[|fs| - 1 - i] == FormulaPrinter.Print(fs[i])
  {
  }

  /** The `forEach` over the antecedent: each formula's text is pushed, followed by ", ". */
  method PushInOrder(parts: seq<string>, fs: seq<Formula>) returns (r: seq<string>)
    ensures |fs| == 0 ==> r == parts
    ensures |fs| > 0 ==> PendingSeparator(r, Concat(parts) + Separated(Prints(fs)))
  {
    r := parts;
    ghost var texts := Prints(fs);
    for i := 0 to |fs|
      invariant i == 0 ==> r == parts
      invariant i > 0 ==> PendingSeparator(r, Concat(parts) + Separated(texts[..i]))
    {
      PushStep(parts, r, texts, i);
      r := r + [FormulaPrinter.Print(fs[i]), Separator];
    }
    TakeAll(texts);
  }

  /** The countdown loop over the succedent: from the last index to index 0, each text followed by ", ". */
  method PushReversed(parts: seq<string>, fs: seq<Formula>) returns (r: seq<string>)
    ensures |fs| == 0 ==> r == parts
    ensures |fs| > 0 ==> PendingSeparator(r, Concat(parts) + Separated(Prints(Reverse(fs))))
  {
    r := parts;
    ghost var texts := Prints(Reverse(fs));
    ghost var n := |fs|;
    for i := |fs| downto 0
      invariant i == n ==> r == parts
      invariant i < n ==> PendingSeparator(r, Concat(parts) + Separated(texts[..n - i]))
    {
      PrintsReversed(fs, i);
      PushStep(parts, r, texts, n - 1 - i);
      r := r + [FormulaPrinter.Print(fs[i]), Separator];
    }
    TakeAll(texts);
  }

  /**
   * `toString`: push each antecedent formula followed by ", ", pop the last
   * separator, then the blanks and the arrow, then each succedent formula from
   * the last index down followed by ", ", pop again, and join.
   */
  method ToString(s: Sequent) returns (text: string)
    ensures text == Text(s)
  {
    var stringParts := PushAntecedent(s.antecedent);
    ConcatPush(stringParts, Arrow);
    stringParts := stringParts + [Arrow];
    stringParts := PushSuccedent(stringParts, s.succedent);
    text := Concat(stringParts);
  }

  /** The antecedent's pushes: each formula and ", ", the last separator popped, then a blank. */
  method PushAntecedent(fs: seq<Formula>) returns (r: seq<string>)
    ensures Concat(r) == if |fs| == 0 then "" else Separated(Prints(fs)) + " "
  {
    r := PushInOrder([], fs);
    r := Pop(r);
    if |fs| != 0 {
      ConcatPush(r, " ");
      r := r + [" "];
    }
  }

  /** The succedent's pushes after the arrow: a blank, each formula from the last and ", ", the last separator popped. */
  method PushSuccedent(parts: seq<string>, fs: seq<Formula>) returns (r: seq<string>)
    ensures Concat(r) == Concat(parts) + if |fs| == 0 then "" else " " + Separated(Prints(Reverse(fs)))
  {
    r := parts;
    if |fs| != 0 {
      ConcatPush(r, " ");
      r := r + [" "];
      ghost var front := Concat(r);
      r := PushReversed(r, fs);
      r := Pop(r);
      assert Concat(r) == front + Separated(Prints(Reverse(fs)));
    }
  }

  /** The empty sequent prints as the bare arrow. */
  lemma EmptyText()
    ensures Text(DefaultSequent()) == Arrow
  {
  }

  /**
   * Where the arrow sits: at index 0 when the antecedent is empty, otherwise
   * after the antecedent's formulas and one blank. A blank follows it exactly
   * when the succedent is non-empty; otherwise it ends the text.
   */
  lemma ArrowPosition(s: Sequent)
    ensures var p := if |s.antecedent| == 0 then 0 else |Separated(Prints(s.antecedent))| + 1;
      p < |Text(s)| && Text(s)[p..p + 1] == Arrow
      && (|s.antecedent| > 0 ==> Text(s)[..p] == Separated(Prints(s.antecedent)) + " ")
      && (|s.succedent| == 0 <==> |Text(s)| == p + 1)
      && (|s.succedent| > 0 ==> Text(s)[p + 1] == ' ')
  {
  }

  /** Printing the stored succedent is printing its display order: the stored list reversed. */
  lemma SuccedentPrintedReversed(ant: seq<Formula>, shown: seq<Formula>)
    requires |shown| > 0
    ensures Text(Sequent(ant, Reverse(shown)))
      == (if |ant| == 0 then "" else Separated(Prints(ant)) + " ") + Arrow + " " + Separated(Prints(shown))
  {
    ReverseReverse(shown);
  }

  /** Some formula of the list is false under `a`. */
  predicate SomeFalse(fs: seq<Formula>, a: string -> bool) {
    exists i :: 0 <= i < |fs| && !Sem(fs[i], a)
  }

  /** Some formula of the list is true under `a`. */
  predicate SomeTrue(fs: seq<Formula>, a: string -> bool) {
    exists j :: 0 <= j < |fs| && Sem(fs[j], a)
  }

  /**
   * A sequent holds under `a` when the conjunction of its antecedent implies
   * the disjunction of its succedent: some antecedent formula is false or
   * some succedent formula is true.
   */
  predicate Holds(s: Sequent, a: string -> bool) {
    SomeFalse(s.antecedent, a) || SomeTrue(s.succedent, a)
  }

  lemma SomeFalseCons(f: Formula, rest: seq<Formula>, a: string -> bool)
    ensures SomeFalse([f] + rest, a) <==> !Sem(f, a) || SomeFalse(rest, a)
  {
    var fs := [f] + rest;
    assert fs[0] == f;
    if SomeFalse(rest, a) {
      var i :| 0 <= i < |rest| && !Sem(rest[i], a);
      assert fs[i + 1] == rest[i];
    }
    if SomeFalse(fs, a) {
      var i :| 0 <= i < |fs| && !Sem(fs[i], a);
      if i > 0 {
        assert rest[i - 1] == fs[i];
      }
    }
  }

  lemma SomeTrueCons(f: Formula, rest: seq<Formula>, a: string -> bool)
    ensures SomeTrue([f] + rest, a) <==> Sem(f, a) || SomeTrue(rest, a)
  {
    var fs := [f] + rest;
    assert fs[0] == f;
    if SomeTrue(rest, a) {
      var i :| 0 <= i < |rest| && Sem(rest[i], a);
      assert fs[i + 1] == rest[i];
    }
    if SomeTrue(fs, a) {
      var i :| 0 <= i < |fs| && Sem(fs[i], a);
      if i > 0 {
        assert rest[i - 1] == fs[i];
      }
    }
  }

  /** A valid sequent: it holds under every assignment. */
  ghost predicate Valid(s: Sequent) {
    forall a: string -> bool :: Holds(s, a)
  }

  /** Total number of connective occurrences over both cedents. */
  function CedentConnectives(fs: seq<Formula>): nat {
    if |fs| == 0 then 0 else CedentConnectives(fs[..|fs| - 1]) + Connectives(fs[|fs| - 1])
  }

  function SequentConnectives(s: Sequent): nat {
    CedentConnectives(s.antecedent) + CedentConnectives(s.succedent)
  }

  lemma {:induction false} CedentConnectivesAppend(xs: seq<Formula>, ys: seq<Formula>)
    ensures CedentConnectives(xs + ys) == CedentConnectives(xs) + CedentConnectives(ys)
    decreases |ys|
  {
    if |ys| == 0 {
      assert xs + ys == xs;
    } else {
      var zs := ys[..|ys| - 1];
      assert (xs + ys)[..|xs + ys| - 1] == xs + zs;
      CedentConnectivesAppend(xs, zs);
    }
  }

  /** No Truth or Falsity in any formula of the list. */
  predicate CedentConstantFree(fs: seq<Formula>) {
    forall i :: 0 <= i < |fs| ==> ConstantFree(fs[i])
  }

  /** No Truth or Falsity anywhere in the sequent. */
  predicate SequentConstantFree(s: Sequent) {
    CedentConstantFree(s.antecedent) && CedentConstantFree(s.succedent)
  }

  lemma ConstantFreeCons(f: Formula, rest: seq<Formula>)
    ensures CedentConstantFree([f] + rest) <==> ConstantFree(f) && CedentConstantFree(rest)
  {
    var fs := [f] + rest;
    assert fs[0] == f;
    assert forall i :: 0 <= i < |rest| ==> fs[i + 1] == rest[i];
    if CedentConstantFree(rest) && ConstantFree(f) {
      assert forall i :: 1 <= i < |fs| ==> fs[i] == rest[i - 1];
    }
  }

  lemma CedentConnectivesCons(f: Formula, rest: seq<Formula>)
    ensures CedentConnectives([f] + rest) == Connectives(f) + CedentConnectives(rest)
  {
    CedentConnectivesAppend([f], rest);
    assert [f][..0] == [];
  }
}
