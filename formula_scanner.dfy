/**
 * The lexer of `parseFormula` (`scan`): turns formula text into tokens. A
 * token is a string, as in the source, where the operator tokens are the
 * string values of `NonVariableToken` and a variable token is its name.
 * The reference functions work on the text and an index into it, as the
 * source's cursor `currentCharIndex` does.
 */
module FormulaScanner {
  import opened Wrappers
  import opened Formulas

  type Token = string

  const LeftParen: Token := "("
  const RightParen: Token := ")"
  const Ampersand: Token := "&"
  const Line: Token := "|"
  const Minus: Token := "-"
  const Arrow: Token := "->"
  const TruthToken: Token := "T"
  const FalsityToken: Token := "F"

  /** What `parseFormula` can throw: a lex error naming the character, or one of the parse errors. */
  datatype FormulaError =
    | UnexpectedCharacter(c: char)
    | Unclosed
    | ExpectedExpression(found: Option<Token>)
    | AtEnd

  predicate IsOperator(t: Token) {
    t == LeftParen || t == RightParen || t == Ampersand || t == Line || t == Minus || t == Arrow
  }

  /** The tokens the lexer can produce: an operator or a non-empty alphanumeric run. */
  predicate ValidToken(t: Token) {
    IsOperator(t) || (|t| > 0 && VariableText(t))
  }

  /** Characters that begin a token or are skipped. */
  predicate Lexable(c: char) {
    c == ' ' || c == '\t' || c == '(' || c == ')' || c == '-' || c == '&' || c == '|' || IsAlphanumeric(c)
  }

  /** `peek()`: the character at `i`, or '\0' past the end. */
  function Peek(s: string, i: nat): char {
    if i < |s| then s[i] else '\0'
  }

  /** Length of the alphanumeric run starting at index `i`. */
  function RunLength(s: string, i: nat): (n: nat)
    requires i <= |s|
    ensures i + n <= |s|
    decreases |s| - i
  {
    if i == |s| || !IsAlphanumeric(s[i]) then 0 else 1 + RunLength(s, i + 1)
  }

  /** The run is alphanumeric throughout and cannot be extended. */
  lemma {:induction false} RunLengthMaximal(s: string, i: nat)
    requires i <= |s|
    ensures forall k :: i <= k < i + RunLength(s, i) ==> IsAlphanumeric(s[k])
    ensures i + RunLength(s, i) == |s| || !IsAlphanumeric(s[i + RunLength(s, i)])
    decreases |s| - i
  {
    if i < |s| && IsAlphanumeric(s[i]) {
      RunLengthMaximal(s, i + 1);
    }
  }

  /** What the lexer does at index `i`: skip, emit a token, or fail. */
  datatype Step = Skip(width: nat) | Emit(token: Token, width: nat) | Reject(c: char)

  /**
   * One step of the lexer at index `i`: blanks and tabs are skipped, "->" is
   * one token and any other '-' is Minus, an alphanumeric character starts a
   * maximal alphanumeric run ("T" and "F" on their own are the constant
   * tokens, which are the same strings), and any other character is an
   * error naming it.
   */
  function StepAt(s: string, i: nat): (st: Step)
    requires i < |s|
    ensures st.Skip? || st.Emit? ==> 1 <= st.width && i + st.width <= |s|
  {
    var c := s[i];
    if c == ' ' || c == '\t' then Skip(1)
    else if c == '(' then Emit(LeftParen, 1)
    else if c == ')' then Emit(RightParen, 1)
    else if c == '-' then
      if Peek(s, i + 1) == '>' then Emit(Arrow, 2) else Emit(Minus, 1)
    else if c == '&' then Emit(Ampersand, 1)
    else if c == '|' then Emit(Line, 1)
    else if IsAlphanumeric(c) then
      var n := RunLength(s, i + 1);
      Emit(s[i..i + 1 + n], 1 + n)
    else Reject(c)
  }

  /** Every emitted token is valid, and a rejected character is the one at `i` and cannot start a token. */
  lemma StepAtProps(s: string, i: nat)
    requires i < |s|
    ensures StepAt(s, i).Emit? ==> ValidToken(StepAt(s, i).token)
    ensures StepAt(s, i).Reject? ==> StepAt(s, i).c == s[i] && !Lexable(s[i])
  {
    if IsAlphanumeric(s[i]) {
      var n := RunLength(s, i + 1);
      RunLengthMaximal(s, i + 1);
      var t := s[i..i + 1 + n];
      forall k | 0 <= k < |t|
        ensures IsAlphanumeric(t[k])
      {
        assert t[k] == s[i + k];
      }
    }
  }

  /** The token sequence of the text from index `i` on, or the first character the lexer rejects. */
  function LexFrom(s: string, i: nat): Result<seq<Token>, FormulaError>
    requires i <= |s|
    decreases |s| - i
  {
    if i == |s| then Ok([])
    else
      match StepAt(s, i)
      case Skip(w) => LexFrom(s, i + w)
      case Emit(t, w) => Prepend(t, LexFrom(s, i + w))
      case Reject(c) => Err(UnexpectedCharacter(c))
  }

  /** The token sequence of a whole text. */
  function Lex(s: string): Result<seq<Token>, FormulaError> {
    LexFrom(s, 0)
  }

  function Prepend(t: Token, r: Result<seq<Token>, FormulaError>): Result<seq<Token>, FormulaError> {
    if r.Ok? then Ok([t] + r.value) else r
  }

  function PrependAll(ts: seq<Token>, r: Result<seq<Token>, FormulaError>): Result<seq<Token>, FormulaError> {
    if r.Ok? then Ok(ts + r.value) else r
  }

  /** Every token the lexer produces is an operator or a non-empty alphanumeric run. */
  lemma {:induction false} LexTokensValid(s: string, i: nat)
    requires i <= |s|
    ensures LexFrom(s, i).Ok? ==> forall k :: 0 <= k < |LexFrom(s, i).value| ==> ValidToken(LexFrom(s, i).value[k])
    decreases |s| - i
  {
    if i < |s| {
      StepAtProps(s, i);
      match StepAt(s, i)
      case Skip(w) =>
        LexTokensValid(s, i + w);
      case Emit(t, w) =>
        LexTokensValid(s, i + w);
      case Reject(c) =>
    }
  }

  /** A lex error names a character of the text, at or after `i`, that cannot start a token. */
  lemma {:induction false} LexErrorChar(s: string, i: nat)
    requires i <= |s|
    ensures LexFrom(s, i).Err? ==>
      LexFrom(s, i).error.UnexpectedCharacter? && LexFrom(s, i).error.c in s[i..] && !Lexable(LexFrom(s, i).error.c)
    decreases |s| - i
  {
    if i < |s| {
      StepAtProps(s, i);
      var st := StepAt(s, i);
      if st.Reject? {
        assert s[i..][0] == st.c;
      } else {
        LexErrorChar(s, i + st.width);
        assert s[i + st.width..] == s[i..][st.width..];
      }
    }
  }

  /** `variable()`: the alphanumeric run starting at `i`, and the index just after it. */
  method ScanVariable(s: string, i: nat) returns (name: string, j: nat)
    requires i <= |s|
    ensures j == i + RunLength(s, i) && name == s[i..j]
  {
    name := "";
    j := i;
    while j < |s|
      invariant i <= j <= |s|
      invariant name == s[i..j]
      invariant RunLength(s, i) == (j - i) + RunLength(s, j)
      decreases |s| - j
    {
      var alnum := IsVariableText(Some([s[j]]));
      SingleCharText(s[j]);
      if !alnum {
        break;
      }
      name := name + [s[j]];
      j := j + 1;
    }
  }

  /** A one-character string is variable text exactly when the character is alphanumeric. */
  lemma SingleCharText(c: char)
    ensures VariableText([c]) <==> IsAlphanumeric(c)
  {
    assert [c][0] == c;
  }

  /** One pass of `scan`'s switch on the character at `i`, with `peek` and `advance` on the text. */
  method ScanStep(formulaText: string, i: nat) returns (st: Step)
    requires i < |formulaText|
    ensures st == StepAt(formulaText, i)
  {
    var c := formulaText[i];
    var next := i + 1;
    if c == ' ' || c == '\t' {
      st := Skip(1);
    } else if c == '(' {
      st := Emit(LeftParen, 1);
    } else if c == ')' {
      st := Emit(RightParen, 1);
    } else if c == '-' {
      if Peek(formulaText, next) == '>' {
        st := Emit(Arrow, 2);
      } else {
        st := Emit(Minus, 1);
      }
    } else if c == '&' {
      st := Emit(Ampersand, 1);
    } else if c == '|' {
      st := Emit(Line, 1);
    } else if c == 'T' || c == 'F' {
      var more := IsVariableText(Some([Peek(formulaText, next)]));
      SingleCharText(Peek(formulaText, next));
      if !more {
        assert RunLength(formulaText, next) == 0;
        st := Emit(if c == 'T' then TruthToken else FalsityToken, 1);
      } else {
        var name, j := ScanVariable(formulaText, next);
        assert formulaText[i..j] == [c] + name;
        st := Emit([c] + name, j - i);
      }
    } else {
      var alnum := IsVariableText(Some([c]));
      SingleCharText(c);
      if alnum {
        var name, j := ScanVariable(formulaText, next);
        assert formulaText[i..j] == [c] + name;
        st := Emit([c] + name, j - i);
      } else {
        st := Reject(c);
      }
    }
  }

  lemma PrependStep(ts: seq<Token>, t: Token, r: Result<seq<Token>, FormulaError>)
    ensures PrependAll(ts, Prepend(t, r)) == PrependAll(ts + [t], r)
  {
    if r.Ok? {
      assert ts + ([t] + r.value) == (ts + [t]) + r.value;
    }
  }

  /** `scan`: the loop that pushes one token per step until the text is used up. */
  method Scan(formulaText: string) returns (r: Result<seq<Token>, FormulaError>)
    ensures r == Lex(formulaText)
  {
    var tokens: seq<Token> := [];
    var i := 0;
    if Lex(formulaText).Ok? {
      assert tokens + Lex(formulaText).value == Lex(formulaText).value;
    }
    while i < |formulaText|
      invariant 0 <= i <= |formulaText|
      invariant Lex(formulaText) == PrependAll(tokens, LexFrom(formulaText, i))
      decreases |formulaText| - i
    {
      var st := ScanStep(formulaText, i);
      match st
      case Skip(w) =>
        i := i + w;
      case Emit(t, w) =>
        PrependStep(tokens, t, LexFrom(formulaText, i + w));
        tokens := tokens + [t];
        i := i + w;
      case Reject(c) =>
        return Err(UnexpectedCharacter(c));
    }
    assert tokens + [] == tokens;
    return Ok(tokens);
  }

  /** Tokens written out with one blank after each. */
  function Unlex(ts: seq<Token>): string {
    if |ts| == 0 then "" else ts[0] + " " + Unlex(ts[1..])
  }

  /** A run of `m` alphanumeric characters followed by another character has length `m`. */
  lemma {:induction false} RunOfAlphanumeric(s: string, i: nat, m: nat)
    requires i + m < |s|
    requires forall k :: i <= k < i + m ==> IsAlphanumeric(s[k])
    requires !IsAlphanumeric(s[i + m])
    ensures RunLength(s, i) == m
    decreases m
  {
    if m > 0 {
      RunOfAlphanumeric(s, i + 1, m - 1);
    }
  }

  /** A valid token followed by a blank is emitted whole, and the blank is skipped. */
  lemma StepOfToken(s: string, i: nat, t: Token)
    requires ValidToken(t)
    requires i + |t| < |s| && s[i..i + |t|] == t && s[i + |t|] == ' '
    ensures StepAt(s, i) == Emit(t, |t|)
    ensures StepAt(s, i + |t|) == Skip(1)
  {
    assert s[i] == t[0];
    if !IsOperator(t) {
      forall k | i + 1 <= k < i + 1 + (|t| - 1)
        ensures IsAlphanumeric(s[k])
      {
        assert s[k] == t[k - i];
      }
      RunOfAlphanumeric(s, i + 1, |t| - 1);
    } else if t == Arrow {
      assert s[i + 1] == t[1];
    }
  }

  /** Where a token is emitted and the blank after it skipped, lexing resumes after the blank. */
  lemma LexAfterToken(s: string, i: nat, t: Token)
    requires i + |t| < |s|
    requires StepAt(s, i) == Emit(t, |t|) && StepAt(s, i + |t|) == Skip(1)
    ensures LexFrom(s, i) == Prepend(t, LexFrom(s, i + |t| + 1))
  {
    assert LexFrom(s, i + |t|) == LexFrom(s, i + |t| + 1);
  }

  /** The text from `i` on is the tokens written out, each followed by one blank. */
  predicate WrittenAt(s: string, i: nat, ts: seq<Token>)
    requires i <= |s|
    decreases |ts|
  {
    if |ts| == 0 then i == |s|
    else
      var t := ts[0];
      i + |t| < |s| && s[i..i + |t|] == t && s[i + |t|] == ' ' &&
      ValidToken(t) && WrittenAt(s, i + |t| + 1, ts[1..])
  }

  /** The text written out by `Unlex`, after any prefix, is written in this sense. */
  lemma {:induction false} UnlexWritten(p: string, ts: seq<Token>)
    requires forall k :: 0 <= k < |ts| ==> ValidToken(ts[k])
    ensures WrittenAt(p + Unlex(ts), |p|, ts)
    decreases |ts|
  {
    if |ts| > 0 {
      UnlexHead(p, ts);
      UnlexWritten(p + ts[0] + " ", ts[1..]);
    }
  }

  /** The first token written out after `p`, its blank, and the rest written out after both. */
  lemma UnlexHead(p: string, ts: seq<Token>)
    requires |ts| > 0
    ensures p + Unlex(ts) == (p + ts[0] + " ") + Unlex(ts[1..])
    ensures |p| + |ts[0]| < |p + Unlex(ts)|
    ensures (p + Unlex(ts))[|p|..|p| + |ts[0]|] == ts[0] && (p + Unlex(ts))[|p| + |ts[0]|] == ' '
  {
    var t := ts[0];
    var s := p + Unlex(ts);
    assert s == p + t + " " + Unlex(ts[1..]);
    assert s[|p|..|p| + |t|] == t;
  }

  /** Lexing the tokens written out with blanks gives the tokens back, wherever they start. */
  lemma {:induction false} LexWritten(s: string, i: nat, ts: seq<Token>)
    requires i <= |s| && WrittenAt(s, i, ts)
    ensures LexFrom(s, i) == Ok(ts)
    decreases |ts|
  {
    if |ts| > 0 {
      var t := ts[0];
      StepOfToken(s, i, t);
      LexAfterToken(s, i, t);
      LexWritten(s, i + |t| + 1, ts[1..]);
      assert [t] + ts[1..] == ts;
    }
  }

  /** Lexing the tokens written out with blanks gives the tokens back. */
  lemma LexUnlex(ts: seq<Token>)
    requires forall k :: 0 <= k < |ts| ==> ValidToken(ts[k])
    ensures Lex(Unlex(ts)) == Ok(ts)
  {
    UnlexWritten("", ts);
    assert "" + Unlex(ts) == Unlex(ts);
    LexWritten(Unlex(ts), 0, ts);
  }

  /** "A->B" is three tokens: the '-' before '>' joins it into one Arrow. */
  lemma ArrowExample()
    ensures Lex("A->B") == Ok(["A", Arrow, "B"])
  {
    var s1 := "A->B";
    assert RunLength(s1, 4) == 0;
    assert StepAt(s1, 3) == Emit("B", 1) by { assert s1[3..4] == "B"; }
    assert LexFrom(s1, 3) == Ok(["B"]) by { assert ["B"] + [] == ["B"]; }
    assert StepAt(s1, 1) == Emit(Arrow, 2);
    assert LexFrom(s1, 1) == Ok([Arrow, "B"]) by { assert [Arrow] + ["B"] == [Arrow, "B"]; }
    assert RunLength(s1, 1) == 0;
    assert StepAt(s1, 0) == Emit("A", 1) by { assert s1[0..1] == "A"; }
    assert ["A"] + [Arrow, "B"] == ["A", Arrow, "B"];
  }

  /** "--A" is two Minus tokens and A. */
  lemma MinusExample()
    ensures Lex("--A") == Ok([Minus, Minus, "A"])
  {
    var s3 := "--A";
    assert RunLength(s3, 3) == 0;
    assert StepAt(s3, 2) == Emit("A", 1) by { assert s3[2..3] == "A"; }
    assert LexFrom(s3, 2) == Ok(["A"]) by { assert ["A"] + [] == ["A"]; }
    assert StepAt(s3, 1) == Emit(Minus, 1);
    assert LexFrom(s3, 1) == Ok([Minus, "A"]) by { assert [Minus] + ["A"] == [Minus, "A"]; }
    assert StepAt(s3, 0) == Emit(Minus, 1);
    assert [Minus] + [Minus, "A"] == [Minus, Minus, "A"];
  }

  /** "T" alone is the Truth token, while "Tom" is one variable token. */
  lemma ConstantOrVariable()
    ensures Lex("T") == Ok([TruthToken])
    ensures Lex("Tom") == Ok(["Tom"])
  {
    assert RunLength("T", 1) == 0;
    assert StepAt("T", 0) == Emit(TruthToken, 1) by { assert "T"[0..1] == "T"; }
    assert LexFrom("T", 1) == Ok([]);
    assert [TruthToken] + [] == [TruthToken];
    var s := "Tom";
    assert RunLength(s, 3) == 0;
    assert RunLength(s, 1) == 2;
    assert StepAt(s, 0) == Emit("Tom", 3) by { assert s[0..3] == "Tom"; }
    assert LexFrom(s, 3) == Ok([]);
    assert ["Tom"] + [] == ["Tom"];
  }

  /**
   * Every '-' is a token: the Arrow over two characters exactly when '>'
   * follows it, otherwise Minus over one character.
   */
  lemma DashToken(s: string, i: nat)
    requires i < |s| && s[i] == '-'
    ensures StepAt(s, i) == Emit(Arrow, 2) <==> i + 1 < |s| && s[i + 1] == '>'
    ensures StepAt(s, i) == Emit(Minus, 1) <==> !(i + 1 < |s| && s[i + 1] == '>')
  {
    assert Arrow != Minus by { assert |Arrow| != |Minus|; }
  }

  /**
   * 'T' or 'F' is the one-character constant token exactly when no
   * alphanumeric character follows it; otherwise it begins a longer variable
   * token.
   */
  lemma ConstantToken(s: string, i: nat)
    requires i < |s| && (s[i] == 'T' || s[i] == 'F')
    ensures StepAt(s, i).Emit? && |StepAt(s, i).token| >= 1 && StepAt(s, i).token[0] == s[i]
    ensures StepAt(s, i).token == [s[i]] <==> i + 1 == |s| || !IsAlphanumeric(s[i + 1])
    ensures s[i] == 'T' && (i + 1 == |s| || !IsAlphanumeric(s[i + 1])) ==> StepAt(s, i).token == TruthToken
    ensures s[i] == 'F' && (i + 1 == |s| || !IsAlphanumeric(s[i + 1])) ==> StepAt(s, i).token == FalsityToken
  {
    var n := RunLength(s, i + 1);
    assert StepAt(s, i) == Emit(s[i..i + 1 + n], 1 + n);
    assert s[i..i + 1 + n][0] == s[i];
    if i + 1 < |s| && IsAlphanumeric(s[i + 1]) {
      assert n >= 1;
      assert |s[i..i + 1 + n]| >= 2;
    } else {
      assert n == 0;
      assert s[i..i + 1] == [s[i]];
    }
  }

  /** A character outside the token alphabet is reported by name, even after valid tokens. */
  lemma UnexpectedCharacterReported()
    ensures Lex(">") == Err(UnexpectedCharacter('>'))
    ensures Lex("A > B") == Err(UnexpectedCharacter('>'))
  {
    assert RunLength("A > B", 1) == 0;
    assert LexFrom("A > B", 1) == LexFrom("A > B", 2);
  }
}
