/**
 * `parseSequent`: sequent text "Γ => Δ" to a `Sequent`. The text is split on
 * "=>", each side on ",", blank fragments are dropped and the rest parsed as
 * formulas; the succedent is stored reversed.
 */
module SequentParser {
  import opened Wrappers
  import opened Formulas
  import opened FormulaScanner
  import opened FormulaParser
  import opened Sequents

  const SequentArrow: string := "=>"
  const Comma: string := ","

  /** A wrong number of sequent arrows (the count found is reported), or a formula that does not lex or parse. */
  datatype SequentError = ArrowCount(found: nat) | FormulaFailed(error: FormulaError)

  /** The first index at or after `k` where `sep` occurs in `s`. */
  function Find(s: string, sep: string, k: nat): (r: Option<nat>)
    requires |sep| > 0
    ensures r.Some? ==> k <= r.value && r.value + |sep| <= |s| && s[r.value..r.value + |sep|] == sep
    decreases |s| - k
  {
    if k + |sep| > |s| then None
    else if s[k..k + |sep|] == sep then Some(k)
    else Find(s, sep, k + 1)
  }

  /**
   * `String.split` with a non-empty separator: the pieces between the
   * occurrences found from left to right. A text without the separator,
   * the empty text included, is a single piece.
   */
  function Split(s: string, sep: string): (pieces: seq<string>)
    requires |sep| > 0
    ensures |pieces| >= 1
    decreases |s|
  {
    match Find(s, sep, 0)
    case None => [s]
    case Some(k) => [s[..k]] + Split(s[k + |sep|..], sep)
  }

  /** `Array.join`: the pieces with `sep` between neighbours. */
  function Join(pieces: seq<string>, sep: string): string {
    if |pieces| == 0 then ""
    else if |pieces| == 1 then pieces[0]
    else pieces[0] + sep + Join(pieces[1..], sep)
  }

  /** `s` has no occurrence of the separator's first character. */
  predicate Avoids(s: string, sep: string)
    requires |sep| > 0
  {
    forall i :: 0 <= i < |s| ==> s[i] != sep[0]
  }

  lemma {:induction false} FindSkips(s: string, sep: string, k: nat, m: nat)
    requires |sep| > 0 && k <= m && m + |sep| <= |s| && s[m..m + |sep|] == sep
    requires forall i :: k <= i < m ==> s[i] != sep[0]
    ensures Find(s, sep, k) == Some(m)
    decreases m - k
  {
    if k < m {
      assert s[k..k + |sep|][0] == s[k];
      FindSkips(s, sep, k + 1, m);
    }
  }

  lemma {:induction false} FindNone(s: string, sep: string, k: nat)
    requires |sep| > 0 && k <= |s|
    requires forall i :: k <= i < |s| ==> s[i] != sep[0]
    ensures Find(s, sep, k) == None
    decreases |s| - k
  {
    if k + |sep| <= |s| {
      assert s[k..k + |sep|][0] == s[k];
      FindNone(s, sep, k + 1);
    }
  }

  /** A text free of the separator's first character splits into itself. */
  lemma SplitWhole(s: string, sep: string)
    requires |sep| > 0 && Avoids(s, sep)
    ensures Split(s, sep) == [s]
  {
    FindNone(s, sep, 0);
  }

  /** The first separator after a piece free of it ends that piece. */
  lemma SplitFirst(a: string, sep: string, b: string)
    requires |sep| > 0 && Avoids(a, sep)
    ensures Split(a + sep + b, sep) == [a] + Split(b, sep)
  {
    var s := a + sep + b;
    assert s[|a|..|a| + |sep|] == sep;
    FindSkips(s, sep, 0, |a|);
    assert s[..|a|] == a;
    assert s[|a| + |sep|..] == b;
  }

  /** Splitting the joined pieces gives the pieces back, when no piece holds the separator. */
  lemma {:induction false} SplitJoin(pieces: seq<string>, sep: string)
    requires |sep| > 0 && |pieces| >= 1
    requires forall i :: 0 <= i < |pieces| ==> Avoids(pieces[i], sep)
    ensures Split(Join(pieces, sep), sep) == pieces
    decreases |pieces|
  {
    if |pieces| == 1 {
      SplitWhole(pieces[0], sep);
    } else {
      SplitFirst(pieces[0], sep, Join(pieces[1..], sep));
      SplitJoin(pieces[1..], sep);
    }
  }

  /** Joining the pieces of a split gives the text back. */
  lemma {:induction false} JoinSplit(s: string, sep: string)
    requires |sep| > 0
    ensures Join(Split(s, sep), sep) == s
    decreases |s|
  {
    match Find(s, sep, 0)
    case None =>
    case Some(k) =>
      var rest := s[k + |sep|..];
      var pieces := Split(rest, sep);
      JoinSplit(rest, sep);
      assert Split(s, sep) == [s[..k]] + pieces;
      assert ([s[..k]] + pieces)[1..] == pieces;
      assert Join(Split(s, sep), sep) == s[..k] + sep + rest;
      assert s == s[..k] + s[k..k + |sep|] + rest;
  }

  /** The characters `String.trim` removes: ECMAScript white space and line terminators. */
  predicate IsWhiteSpace(c: char) {
    c == '\t' || c == '\n' || c == '\U{000B}' || c == '\U{000C}' || c == '\r' || c == ' '
    || c == '\U{00A0}' || c == '\U{1680}' || ('\U{2000}' <= c <= '\U{200A}')
    || c == '\U{2028}' || c == '\U{2029}' || c == '\U{202F}' || c == '\U{205F}'
    || c == '\U{3000}' || c == '\U{FEFF}'
  }

  function TrimStart(s: string): string {
    if |s| > 0 && IsWhiteSpace(s[0]) then TrimStart(s[1..]) else s
  }

  function TrimEnd(s: string): string {
    if |s| > 0 && IsWhiteSpace(s[|s| - 1]) then TrimEnd(s[..|s| - 1]) else s
  }

  /** `String.trim`: white space removed from both ends. */
  function Trim(s: string): string {
    TrimEnd(TrimStart(s))
  }

  predicate AllWhiteSpace(s: string) {
    forall i :: 0 <= i < |s| ==> IsWhiteSpace(s[i])
  }

  lemma {:induction false} TrimStartEmpty(s: string)
    ensures TrimStart(s) == "" <==> AllWhiteSpace(s)
    ensures TrimStart(s) != "" ==> !IsWhiteSpace(TrimStart(s)[0])
    decreases |s|
  {
    if |s| > 0 && IsWhiteSpace(s[0]) {
      TrimStartEmpty(s[1..]);
      if AllWhiteSpace(s[1..]) {
        forall i | 0 <= i < |s|
          ensures IsWhiteSpace(s[i])
        {
          if i > 0 {
            assert s[i] == s[1..][i - 1];
          }
        }
      }
      if AllWhiteSpace(s) {
        forall i | 0 <= i < |s[1..]|
          ensures IsWhiteSpace(s[1..][i])
        {
          assert s[1..][i] == s[i + 1];
        }
      }
    }
  }

  lemma {:induction false} TrimEndKeepsFirst(s: string)
    requires |s| > 0 && !IsWhiteSpace(s[0])
    ensures |TrimEnd(s)| > 0
    decreases |s|
  {
    if IsWhiteSpace(s[|s| - 1]) {
      TrimEndKeepsFirst(s[..|s| - 1]);
    }
  }

  /** A fragment is blank (`trim() === ""`) exactly when every character is white space. */
  lemma TrimEmpty(s: string)
    ensures Trim(s) == "" <==> AllWhiteSpace(s)
  {
    TrimStartEmpty(s);
    if TrimStart(s) != "" {
      TrimEndKeepsFirst(TrimStart(s));
    }
  }

  /** `filter(formulaString => formulaString.trim() !== "")`. */
  function NonBlank(fragments: seq<string>): (kept: seq<string>)
    ensures |kept| <= |fragments|
  {
    if |fragments| == 0 then []
    else if Trim(fragments[0]) == "" then NonBlank(fragments[1..])
    else [fragments[0]] + NonBlank(fragments[1..])
  }

  /** `map(parseFormula)`: every fragment parsed in order; the first error is thrown. */
  function ParseAll(fragments: seq<string>): (r: Result<seq<Formula>, FormulaError>)
    ensures r.Ok? ==> |r.value| == |fragments|
  {
    if |fragments| == 0 then Ok([])
    else
      var f :- ParseFormulaText(fragments[0]);
      var rest :- ParseAll(fragments[1..]);
      Ok([f] + rest)
  }

  /** The formulas of one side of the arrow, or the formula error. */
  function ParseCedent(side: string): Result<seq<Formula>, SequentError> {
    match ParseAll(NonBlank(Split(side, Comma)))
    case Ok(fs) => Ok(fs)
    case Err(e) => Err(FormulaFailed(e))
  }

  /** `parseSequent`. */
  function ParseSequentText(text: string): Result<Sequent, SequentError> {
    var cedents := Split(text, SequentArrow);
    if |cedents| != 2 then Err(ArrowCount(|cedents| - 1))
    else
      var antecedent :- ParseCedent(cedents[0]);
      var succedent :- ParseCedent(cedents[1]);
      Ok(Sequent(antecedent, Reverse(succedent)))
  }

  /**
   * `ParseAll` succeeds exactly when every fragment parses, and then gives
   * each fragment's formula at the fragment's index; otherwise it reports the
   * error of the first fragment that fails.
   */
  lemma {:induction false} ParseAllSpec(fragments: seq<string>)
    ensures ParseAll(fragments).Ok? <==> forall i :: 0 <= i < |fragments| ==> ParseFormulaText(fragments[i]).Ok?
    ensures ParseAll(fragments).Ok? ==>
      forall i :: 0 <= i < |fragments| ==> ParseAll(fragments).value[i] == ParseFormulaText(fragments[i]).value
    ensures ParseAll(fragments).Err? ==>
      exists i :: 0 <= i < |fragments| && ParseFormulaText(fragments[i]) == Err(ParseAll(fragments).error)
        && forall j :: 0 <= j < i ==> ParseFormulaText(fragments[j]).Ok?
    decreases |fragments|
  {
    if |fragments| > 0 {
      ParseAllSpec(fragments[1..]);
      if ParseFormulaText(fragments[0]).Ok? && ParseAll(fragments[1..]).Err? {
        var i :| 0 <= i < |fragments[1..]| && ParseFormulaText(fragments[1..][i]) == Err(ParseAll(fragments[1..]).error)
          && forall j :: 0 <= j < i ==> ParseFormulaText(fragments[1..][j]).Ok?;
        assert ParseFormulaText(fragments[i + 1]) == Err(ParseAll(fragments).error);
        assert forall j :: 1 <= j < i + 1 ==> ParseFormulaText(fragments[j]) == ParseFormulaText(fragments[1..][j - 1]);
      }
      if ParseAll(fragments).Ok? {
        assert forall i :: 1 <= i < |fragments| ==> fragments[i] == fragments[1..][i - 1];
      }
      if forall i :: 0 <= i < |fragments| ==> ParseFormulaText(fragments[i]).Ok? {
        assert forall i :: 0 <= i < |fragments[1..]| ==> fragments[1..][i] == fragments[i + 1];
      }
    }
  }

  /** Anything but exactly one "=>" is rejected, and the error names how many there are. */
  lemma ArrowCountReported(text: string)
    ensures ParseSequentText(text).Err? && ParseSequentText(text).error.ArrowCount?
      <==> |Split(text, SequentArrow)| != 2
    ensures |Split(text, SequentArrow)| != 2 ==>
      ParseSequentText(text).error.found + 1 == |Split(text, SequentArrow)|
  {
  }

  /** Fragments that are all non-blank are all kept, in order. */
  lemma {:induction false} NonBlankKeeps(fragments: seq<string>)
    requires forall i :: 0 <= i < |fragments| ==> !AllWhiteSpace(fragments[i])
    ensures NonBlank(fragments) == fragments
    decreases |fragments|
  {
    if |fragments| > 0 {
      TrimEmpty(fragments[0]);
      NonBlankKeeps(fragments[1..]);
    }
  }

  /** A side made only of white space and commas gives an empty cedent. */
  lemma {:induction false} BlankSideEmpty(side: string)
    requires forall i :: 0 <= i < |side| ==> IsWhiteSpace(side[i]) || side[i] == ','
    ensures NonBlank(Split(side, Comma)) == []
    ensures ParseCedent(side) == Ok([])
    decreases |side|
  {
    match Find(side, Comma, 0)
    case None =>
      assert forall i :: 0 <= i < |side| ==> side[i] != ',' by {
        forall i | 0 <= i < |side|
          ensures side[i] != ','
        {
          if side[i] == ',' {
            assert side[i..i + 1] == Comma;
            FindSkipsOrFinds(side, 0, i);
          }
        }
      }
      TrimEmpty(side);
    case Some(k) =>
      var piece := side[..k];
      var rest := side[k + 1..];
      assert forall i :: 0 <= i < |rest| ==> rest[i] == side[k + 1 + i];
      BlankSideEmpty(rest);
      assert forall i :: 0 <= i < |piece| ==> piece[i] == side[i];
      FindBefore(side, k);
      TrimEmpty(piece);
  }

  /** No comma before the first one `Find` reports. */
  lemma {:induction false} FindBefore(s: string, k: nat)
    requires Find(s, Comma, 0) == Some(k)
    ensures forall i :: 0 <= i < k ==> s[i] != ','
  {
    forall i | 0 <= i < k
      ensures s[i] != ','
    {
      if s[i] == ',' {
        assert s[i..i + 1] == Comma;
        FindSkipsOrFinds(s, 0, i);
      }
    }
  }

  /** `Find` from `k` never passes a comma at `m >= k`. */
  lemma {:induction false} FindSkipsOrFinds(s: string, k: nat, m: nat)
    requires k <= m < |s| && s[m] == ','
    ensures Find(s, Comma, k).Some? && Find(s, Comma, k).value <= m
    decreases m - k
  {
    assert s[m..m + 1] == Comma;
    if s[k..k + 1] != Comma {
      FindSkipsOrFinds(s, k + 1, m);
    }
  }

  /** Characters that can appear in a written-out token list. */
  predicate WrittenChar(c: char) {
    c == ' ' || c == '(' || c == ')' || c == '&' || c == '|' || c == '-' || c == '>' || IsAlphanumeric(c)
  }

  lemma TokenChars(t: Token)
    requires ValidToken(t)
    ensures |t| > 0 && forall i :: 0 <= i < |t| ==> WrittenChar(t[i]) && t[i] != ' '
  {
  }

  lemma {:induction false} UnlexChars(ts: seq<Token>)
    requires forall k :: 0 <= k < |ts| ==> ValidToken(ts[k])
    ensures forall i :: 0 <= i < |Unlex(ts)| ==> WrittenChar(Unlex(ts)[i])
    ensures |ts| > 0 ==> |ts[0]| > 0 && |Unlex(ts)| > 0 && Unlex(ts)[0] == ts[0][0] && Unlex(ts)[0] != ' '
    decreases |ts|
  {
    if |ts| > 0 {
      TokenChars(ts[0]);
      UnlexChars(ts[1..]);
      var u := Unlex(ts);
      assert u == ts[0] + " " + Unlex(ts[1..]);
      forall i | 0 <= i < |u|
        ensures WrittenChar(u[i])
      {
        if i < |ts[0]| {
          assert u[i] == ts[0][i];
        } else if i > |ts[0]| {
          assert u[i] == Unlex(ts[1..])[i - |ts[0]| - 1];
        }
      }
    }
  }

  /** A formula written out fully bracketed, one blank after each token. */
  function Written(f: Formula): string {
    Unlex(Tokens(f))
  }

  /** The formulas of a cedent written out and joined by commas, in the order given. */
  function WrittenList(fs: seq<Formula>): string {
    Join(seq(|fs|, i requires 0 <= i < |fs| => Written(fs[i])), Comma)
  }

  predicate AllWellNamed(fs: seq<Formula>) {
    forall i :: 0 <= i < |fs| ==> WellNamed(fs[i])
  }

  /** A written formula holds neither '=' nor ',' and does not start with white space. */
  lemma WrittenShape(f: Formula)
    requires WellNamed(f)
    ensures Avoids(Written(f), SequentArrow) && Avoids(Written(f), Comma)
    ensures !AllWhiteSpace(Written(f))
  {
    TokensValid(f);
    UnlexChars(Tokens(f));
    assert |Tokens(f)| > 0;
    var w := Written(f);
    assert |w| > 0 && w[0] == Tokens(f)[0][0];
    TokenChars(Tokens(f)[0]);
  }

  /** Each side written out parses back to its formulas. */
  lemma ParseWrittenList(fs: seq<Formula>)
    requires AllWellNamed(fs)
    ensures Avoids(WrittenList(fs), SequentArrow)
    ensures ParseCedent(WrittenList(fs)) == Ok(fs)
  {
    var ws := seq(|fs|, i requires 0 <= i < |fs| => Written(fs[i]));
    forall i | 0 <= i < |fs|
      ensures Avoids(ws[i], SequentArrow) && Avoids(ws[i], Comma) && !AllWhiteSpace(ws[i])
      ensures ParseFormulaText(ws[i]) == Ok(fs[i])
    {
      WrittenShape(fs[i]);
      ParseUnlexed(fs[i]);
    }
    JoinAvoids(ws, Comma, SequentArrow);
    if |fs| == 0 {
      assert Split("", Comma) == [""] by {
        FindNone("", Comma, 0);
      }
      TrimEmpty("");
      assert NonBlank([""]) == [];
    } else {
      SplitJoin(ws, Comma);
      NonBlankKeeps(ws);
      ParseAllSpec(ws);
      assert ParseAll(ws).value == fs;
    }
  }

  /** Joining pieces that avoid a character, with a separator that avoids it, avoids it. */
  lemma {:induction false} JoinAvoids(pieces: seq<string>, sep: string, other: string)
    requires |other| > 0
    requires forall i :: 0 <= i < |pieces| ==> Avoids(pieces[i], other)
    requires Avoids(sep, other)
    ensures Avoids(Join(pieces, sep), other)
    decreases |pieces|
  {
    if |pieces| > 1 {
      JoinAvoids(pieces[1..], sep, other);
      var j := pieces[0] + sep + Join(pieces[1..], sep);
      forall i | 0 <= i < |j|
        ensures j[i] != other[0]
      {
        if i < |pieces[0]| {
          assert j[i] == pieces[0][i];
        } else if i < |pieces[0]| + |sep| {
          assert j[i] == sep[i - |pieces[0]|];
        } else {
          assert j[i] == Join(pieces[1..], sep)[i - |pieces[0]| - |sep|];
        }
      }
    }
  }

  /**
   * Round trip: a sequent of well-named formulas, written as the antecedent's
   * formulas in order, "=>", and the succedent's formulas in display order
   * (the stored order reversed), parses back to the same sequent.
   */
  lemma ParseWrittenSequent(s: Sequent)
    requires AllWellNamed(s.antecedent) && AllWellNamed(s.succedent)
    ensures ParseSequentText(WrittenList(s.antecedent) + SequentArrow + WrittenList(Reverse(s.succedent))) == Ok(s)
  {
    var a := WrittenList(s.antecedent);
    var b := WrittenList(Reverse(s.succedent));
    assert AllWellNamed(Reverse(s.succedent));
    ParseWrittenList(s.antecedent);
    ParseWrittenList(Reverse(s.succedent));
    SplitFirst(a, SequentArrow, b);
    SplitWhole(b, SequentArrow);
    ReverseReverse(s.succedent);
  }
}
