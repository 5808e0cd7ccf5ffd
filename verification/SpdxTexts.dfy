/** The recogniser and the normaliser of tools/gate_c_supply_chain.py over texts: how a text falls into tokens,
    which texts are accepted, and what becomes of a descriptive license name. */
module SpdxTexts {
  import opened Text
  import opened Spdx

  // ---------------------------------------------------------------------------------------------
  // Tokens

  predicate IsParenthesis(c: char) {
    c == '(' || c == ')'
  }

  predicate IsPlainChar(c: char) {
    !IsSpace(c) && !IsParenthesis(c)
  }

  /** The length of the longest prefix without blanks and parentheses. */
  function PlainLength(s: string): (n: nat)
    ensures n <= |s| && (forall c | c in s[..n] :: IsPlainChar(c)) && (n < |s| ==> !IsPlainChar(s[n]))
  {
    if s == "" || !IsPlainChar(s[0]) then 0 else
      var n := 1 + PlainLength(s[1..]);
      assert s[..n] == [s[0]] + s[1..][..n - 1];
      n
  }

  lemma PadKeepsBlank(s: string)
    requires s != "" && !IsPlainChar(s[0])
    ensures PadParentheses(s) != "" && IsSpace(PadParentheses(s)[0])
  {
  }

  lemma SplitParenthesis(c: char, rest: string)
    requires IsParenthesis(c)
    ensures Split(" " + [c] + " " + rest) == [[c]] + Split(rest)
  {
    var text := " " + [c] + " " + rest;
    assert text[1..] == [c] + (" " + rest);
    WordLengthAt([c], " " + rest);
    assert text[1..][1..] == " " + rest;
    assert (" " + rest)[1..] == rest;
    assert Split(text) == Split(text[1..]);
    assert Split(text[1..]) == [text[1..][..1]] + Split(" " + rest);
  }

  /** A blank is skipped, a parenthesis is a token, and so is a longest stretch of anything else. */
  lemma TokensStep(s: string)
    requires s != ""
    ensures IsSpace(s[0]) ==> Tokens(s) == Tokens(s[1..])
    ensures IsParenthesis(s[0]) ==> Tokens(s) == [[s[0]]] + Tokens(s[1..])
    ensures IsPlainChar(s[0]) ==> var n := PlainLength(s); n > 0 && Tokens(s) == [s[..n]] + Tokens(s[n..])
  {
    if IsParenthesis(s[0]) {
      assert PadParentheses(s) == " " + [s[0]] + " " + PadParentheses(s[1..]);
      SplitParenthesis(s[0], PadParentheses(s[1..]));
    } else if IsSpace(s[0]) {
      assert PadParentheses(s)[1..] == PadParentheses(s[1..]);
    } else {
      PlainToken(s, PlainLength(s));
    }
  }

  lemma PlainToken(s: string, n: nat)
    requires s != "" && IsPlainChar(s[0]) && n == PlainLength(s)
    ensures n > 0 && Tokens(s) == [s[..n]] + Tokens(s[n..])
  {
    var rest := PadParentheses(s[n..]);
    assert s == s[..n] + s[n..];
    PadAppend(s[..n], s[n..]);
    PadIsIdentity(s[..n]);
    if n < |s| {
      PadKeepsBlank(s[n..]);
    }
    WordLengthAt(s[..n], rest);
    assert (s[..n] + rest)[..n] == s[..n] && (s[..n] + rest)[n..] == rest;
  }

  function Concat(tokens: seq<string>): string {
    if tokens == [] then "" else tokens[0] + Concat(tokens[1..])
  }

  function WithoutBlanks(s: string): string {
    if s == "" then "" else (if IsSpace(s[0]) then "" else [s[0]]) + WithoutBlanks(s[1..])
  }

  lemma {:induction false} WithoutBlanksAppend(a: string, b: string)
    ensures WithoutBlanks(a + b) == WithoutBlanks(a) + WithoutBlanks(b)
  {
    if a == "" {
      assert a + b == b;
    } else {
      assert (a + b)[1..] == a[1..] + b;
      WithoutBlanksAppend(a[1..], b);
    }
  }

  lemma {:induction false} NothingToRemove(s: string)
    requires forall c | c in s :: !IsSpace(c)
    ensures WithoutBlanks(s) == s
  {
    if s != "" {
      assert s[0] in s && forall c | c in s[1..] :: c in s;
      NothingToRemove(s[1..]);
    }
  }

  predicate IsToken(token: string) {
    token == "(" || token == ")" || (token != "" && forall c | c in token :: IsPlainChar(c))
  }

  lemma PlainSpell(s: string, n: nat)
    requires n <= |s| && forall c | c in s[..n] :: IsPlainChar(c)
    ensures WithoutBlanks(s) == s[..n] + WithoutBlanks(s[n..])
  {
    assert s == s[..n] + s[n..];
    WithoutBlanksAppend(s[..n], s[n..]);
    NothingToRemove(s[..n]);
  }

  /** The tokens are the text without its blanks, cut at the blanks and around the parentheses. */
  lemma {:induction false} TokensSpell(s: string)
    ensures Concat(Tokens(s)) == WithoutBlanks(s)
    ensures forall token | token in Tokens(s) :: IsToken(token)
    decreases |s|
  {
    if s != "" {
      TokensStep(s);
      if IsPlainChar(s[0]) {
        var n := PlainLength(s);
        PlainSpell(s, n);
        TokensSpell(s[n..]);
        ConcatStep(s[..n], Tokens(s[n..]));
      } else {
        TokensSpell(s[1..]);
        ConcatStep([s[0]], Tokens(s[1..]));
      }
    }
  }

  lemma ConcatStep(token: string, tokens: seq<string>)
    ensures Concat([token] + tokens) == token + Concat(tokens)
  {
    assert ([token] + tokens)[1..] == tokens;
  }

  // ---------------------------------------------------------------------------------------------
  // Accepted texts

  lemma TokensAppend(a: string, b: string)
    requires b != "" && !IsPlainChar(b[0])
    ensures Tokens(a + b) == Tokens(a) + Tokens(b)
  {
    PadAppend(a, b);
    PadKeepsBlank(b);
    SplitAppend(PadParentheses(a), PadParentheses(b));
  }

  lemma ParenthesizedTokens(v: string)
    ensures Tokens("(" + v + ")") == ["("] + Tokens(v) + [")"]
  {
    var tail := v + ")";
    assert "(" + v + ")" == "(" + tail && ("(" + tail)[1..] == tail;
    TokensStep("(" + tail);
    TokensAppend(v, ")");
    TokensStep(")");
    assert ")"[1..] == "" && Tokens("") == [];
  }

  lemma CombinedTokens(v: string, op: string, w: string)
    requires IsOperator(op)
    ensures Tokens(v + (" " + op + (" " + w))) == Tokens(v) + [op] + Tokens(w)
  {
    var middle := " " + op + (" " + w);
    TokensAppend(v, middle);
    BehindOperator(op, w);
  }

  lemma BehindOperator(op: string, w: string)
    requires IsOperator(op)
    ensures Tokens(" " + op + (" " + w)) == [op] + Tokens(w)
  {
    var right := " " + w;
    var middle := " " + op + right;
    assert middle[1..] == op + right && right[1..] == w;
    TokensStep(middle);
    TokensStep(right);
    TokensAppend(op, right);
    OperatorToken(op);
  }

  lemma OperatorToken(op: string)
    requires IsOperator(op)
    ensures Tokens(op) == [op]
  {
    IdentifierIsExpression(op);
  }

  /** What is accepted is accepted in parentheses. */
  lemma ParenthesesAreAccepted(v: string)
    requires Derives(Tokens(v))
    ensures Derives(Tokens("(" + v + ")"))
  {
    var e :| WellFormed(e) && Yield(e) == Tokens(v);
    ParenthesizedTokens(v);
    var g := Single(Group(e));
    assert WellFormedOperand(Group(e)) && YieldOperand(Group(e)) == ["("] + Tokens(v) + [")"];
    assert WellFormed(g) && Yield(g) == YieldOperand(Group(e));
  }

  /** Accepted texts joined by an operator between blanks are accepted. */
  lemma OperatorsAreAccepted(v: string, op: string, w: string)
    requires Derives(Tokens(v)) && IsOperator(op) && Derives(Tokens(w))
    ensures Derives(Tokens(v + (" " + op + (" " + w))))
  {
    var e :| WellFormed(e) && Yield(e) == Tokens(v);
    var f :| WellFormed(f) && Yield(f) == Tokens(w);
    CombinedTokens(v, op, w);
    var g := Chain(e, op, f);
    ChainYields(e, op, f);
  }

  /** The expression `e op f`, with `f` behind the last operand of `e`. */
  function Chain(e: Expression, op: string, f: Expression): Expression {
    match e
    case Single(o) => Binary(o, op, f)
    case Binary(o, own, r) => Binary(o, own, Chain(r, op, f))
  }

  lemma {:induction false} ChainYields(e: Expression, op: string, f: Expression)
    requires WellFormed(e) && IsOperator(op) && WellFormed(f)
    ensures WellFormed(Chain(e, op, f)) && Yield(Chain(e, op, f)) == Yield(e) + [op] + Yield(f)
  {
    if e.Binary? {
      ChainYields(e.right, op, f);
    }
  }

  /** Letters and digits first, then dots and hyphens too; neither `+` nor a blank, and never empty. */
  lemma IdentifierExamples()
    ensures IsId("MIT") && IsId("GPL-2.0-or-later") && IsId("0BSD") && IsId("AND")
    ensures !IsId("") && !IsId("-MIT") && !IsId(".MIT") && !IsId("GPL-2.0+")
    ensures !IsId("A B") && !IsId("A_B") && !IsId("(")
  {
    assert '+' in "GPL-2.0+" && ' ' in "A B" && '_' in "A_B";
  }

  /** A choice in parentheses beside a third license, as in the tests of the tool. */
  lemma GroupedChoiceIsAccepted(a: string, b: string, c: string)
    requires IsId(a) && IsId(b) && IsId(c)
    ensures var choice := a + (" " + "OR" + (" " + b));
            Derives(Tokens("(" + choice + ")" + (" " + "AND" + (" " + c))))
  {
    var or, and := "OR", "AND";
    var choice := a + (" " + or + (" " + b));
    IdentifierAccepted(a);
    IdentifierAccepted(b);
    IdentifierAccepted(c);
    OperatorsAreAccepted(a, or, b);
    ParenthesesAreAccepted(choice);
    OperatorsAreAccepted("(" + choice + ")", and, c);
  }

  lemma IdentifierAccepted(id: string)
    requires IsId(id)
    ensures Derives(Tokens(id))
  {
    IdentifierIsExpression(id);
    ScanIffDerives(Tokens(id));
  }

  /** A dangling operator is rejected, behind whatever is accepted. */
  lemma OpenExpression(v: string)
    requires Derives(Tokens(v))
    ensures !Derives(Tokens(v + " OR"))
  {
    var e :| WellFormed(e) && Yield(e) == Tokens(v);
    TokensAppend(v, " OR");
    TokensStep(" OR");
    assert " OR"[1..] == "OR";
    OperatorToken("OR");
    ScanExpression(e, ["OR"], 0);
    assert Scan(["OR"][1..], true, 0) == false;
    ScanIffDerives(Tokens(v + " OR"));
  }

  /** So is an open parenthesis before it. */
  lemma UnclosedGroup(v: string)
    requires Derives(Tokens(v))
    ensures !Derives(Tokens("(" + v))
  {
    var e :| WellFormed(e) && Yield(e) == Tokens(v);
    TokensStep("(" + v);
    assert ("(" + v)[1..] == v && (["("] + Tokens(v))[1..] == Tokens(v);
    ScanExpression(e, [], 1);
    assert Yield(e) + [] == Tokens(v);
    ScanIffDerives(Tokens("(" + v));
  }

  // ---------------------------------------------------------------------------------------------
  // Descriptive names

  predicate AllIdChars(s: string) {
    forall c | c in s :: IsIdChar(c)
  }

  predicate AllForeign(s: string) {
    s != "" && forall c | c in s :: !IsIdChar(c)
  }

  lemma {:induction false} ForeignRun(run: string, rest: string)
    requires AllForeign(run) && (rest == "" || IsIdChar(rest[0]))
    ensures ForeignLength(run + rest) == |run|
  {
    assert (run + rest)[1..] == run[1..] + rest && run[0] in run;
    if |run| > 1 {
      assert forall c | c in run[1..] :: c in run;
      ForeignRun(run[1..], rest);
    } else {
      assert run[1..] + rest == rest;
    }
  }

  lemma {:induction false} ReplaceKeeps(s: string, rest: string)
    requires AllIdChars(s)
    ensures ReplaceForeign(s + rest) == s + ReplaceForeign(rest)
  {
    if s == "" {
      assert s + rest == rest;
    } else {
      assert (s + rest)[1..] == s[1..] + rest && s[0] in s && forall c | c in s[1..] :: c in s;
      ReplaceKeeps(s[1..], rest);
    }
  }

  lemma ReplaceRun(run: string, rest: string)
    requires AllForeign(run) && (rest == "" || IsIdChar(rest[0]))
    ensures ReplaceForeign(run + rest) == "-" + ReplaceForeign(rest)
  {
    ForeignRun(run, rest);
    assert (run + rest)[|run|..] == rest && run[0] in run && (run + rest)[0] == run[0];
  }

  /** Identifier characters stay; each run of others becomes one hyphen. */
  lemma ReplacesRuns(s: string, run: string, rest: string)
    requires AllIdChars(s) && AllForeign(run) && (rest == "" || IsIdChar(rest[0]))
    ensures ReplaceForeign(s + (run + rest)) == s + ("-" + ReplaceForeign(rest))
  {
    ReplaceKeeps(s, run + rest);
    ReplaceRun(run, rest);
  }

  predicate AllHyphens(s: string) {
    forall c | c in s :: c == '-'
  }

  predicate BareEdges(s: string) {
    s == "" || (s[0] != '-' && s[|s| - 1] != '-')
  }

  lemma {:induction false} StripsAll(s: string)
    requires AllHyphens(s)
    ensures StripHyphens(s) == ""
  {
    if s != "" {
      assert s[0] in s && forall c | c in s[1..] :: c in s;
      StripsAll(s[1..]);
    }
  }

  lemma {:induction false} StripsEnd(s: string, after: string)
    requires AllHyphens(after) && BareEdges(s) && s != ""
    ensures StripHyphens(s + after) == s
    decreases |after|
  {
    if after == "" {
      assert s + after == s;
    } else {
      var front := after[..|after| - 1];
      assert after[|after| - 1] in after && forall c | c in front :: c in after;
      assert (s + after)[..|s + after| - 1] == s + front;
      StripsEnd(s, front);
    }
  }

  /** Hyphens at both ends go, and no others. */
  lemma {:induction false} StripsEdges(before: string, s: string, after: string)
    requires AllHyphens(before) && AllHyphens(after) && BareEdges(s)
    ensures StripHyphens(before + (s + after)) == s
    decreases |before|
  {
    if s == "" {
      StripsAll(before + (s + after));
    } else if before == "" {
      StripsEnd(s, after);
      assert before + (s + after) == s + after;
    } else {
      assert before[0] in before && (before + (s + after))[1..] == before[1..] + (s + after);
      assert forall c | c in before[1..] :: c in before;
      StripsEdges(before[1..], s, after);
    }
  }

  lemma SlugIs(cleaned: string, before: string, s: string, after: string)
    requires ReplaceForeign(cleaned) == before + (s + after)
    requires AllHyphens(before) && AllHyphens(after) && BareEdges(s)
    ensures Slug(cleaned) == if s == "" then "Unspecified" else s
  {
    StripsEdges(before, s, after);
  }

  lemma ReplaceNothing(s: string)
    requires AllIdChars(s)
    ensures ReplaceForeign(s) == s
  {
    ReplaceKeeps(s, "");
    assert s + "" == s;
  }

  lemma ReplacesBetween(a: string, run: string, b: string)
    requires AllIdChars(a) && AllForeign(run) && b != "" && AllIdChars(b)
    ensures ReplaceForeign(a + (run + b)) == a + ("-" + b)
  {
    assert b[0] in b;
    ReplacesRuns(a, run, b);
    ReplaceNothing(b);
  }

  /** Two words of identifier characters are joined by one hyphen, whatever stands between them. */
  lemma SlugJoinsWords(a: string, run: string, b: string)
    requires a != "" && b != "" && AllIdChars(a) && AllIdChars(b) && a[0] != '-' && b[|b| - 1] != '-' && AllForeign(run)
    ensures Slug(a + (run + b)) == a + ("-" + b)
  {
    ReplacesBetween(a, run, b);
    var cleaned, slug := a + (run + b), a + ("-" + b);
    assert "" + (slug + "") == slug;
    SlugIs(cleaned, "", slug, "");
  }

  /** What stands around a word goes; nothing left is `Unspecified`. */
  lemma SlugStrips(before: string, s: string, after: string)
    requires AllForeign(before) && AllForeign(after) && s != "" && AllIdChars(s) && BareEdges(s)
    ensures Slug(before + (s + after)) == s && Slug(before) == "Unspecified"
  {
    assert s[0] in s;
    ReplaceRun(before, s + after);
    ReplaceKeeps(s, after);
    ReplaceRun(after, "");
    assert after + "" == after && ReplaceForeign("") == "";
    SlugIs(before + (s + after), "-", s, "-");
    ReplaceRun(before, "");
    assert before + "" == before;
    assert "-" + ("" + "") == "-";
    SlugIs(before, "-", "", "");
  }

  /** A text that collapses to an alias becomes what stands for it. */
  lemma AliasNormalises(value: string)
    requires Collapse(value) in LICENSE_ALIASES
    ensures Normalise(value) == LICENSE_ALIASES[Collapse(value)]
  {
    AliasFacts(Collapse(value));
    IdentifierIsExpression(LICENSE_ALIASES[Collapse(value)]);
    assert Collapse(value) != "" by {
      AliasHasBlank(Collapse(value));
    }
  }

  /** Every alias begins as the identifier that stands for it. */
  lemma AliasInitials(alias: string)
    requires alias in LICENSE_ALIASES
    ensures alias != "" && LICENSE_ALIASES[alias] != "" && alias[0] == LICENSE_ALIASES[alias][0]
  {
  }

  /** Blanks do not count: texts with the same words become the same, and no words become nothing. */
  lemma NormaliseIgnoresBlanks(v: string, w: string)
    requires Split(v) == Split(w)
    ensures Normalise(v) == Normalise(w)
    ensures Split(v) == [] ==> Normalise(v) == ""
    ensures Split(v) != [] ==> Normalise(v) != ""
  {
    SplitJoin(Split(v));
    if Split(v) != [] {
      assert Split(v)[0] in Split(v);
      if Collapse(v) in LICENSE_ALIASES {
        AliasNormalises(v);
        AliasInitials(Collapse(v));
      }
    }
  }

  /** The words of a result stand one blank apart. */
  lemma NormaliseIsCollapsed(value: string)
    ensures Collapse(Normalise(value)) == Normalise(value)
  {
    var collapsed := Collapse(value);
    SplitJoin(Split(value));
    if collapsed != "" {
      var cleaned := if collapsed in LICENSE_ALIASES then LICENSE_ALIASES[collapsed] else collapsed;
      if !Scan(Tokens(cleaned), true, 0) {
        CustomIdentifier(cleaned);
        IdentifierIsExpression(Normalise(value));
      } else if collapsed in LICENSE_ALIASES {
        AliasFacts(collapsed);
        IdentifierIsExpression(cleaned);
      }
    } else {
      assert Split("") == [];
    }
  }

  /** A text that is neither an alias nor an expression gets an identifier of its own. */
  lemma DescriptiveName(value: string)
    requires Collapse(value) != "" && Collapse(value) !in LICENSE_ALIASES && !Derives(Tokens(Collapse(value)))
    ensures Normalise(value) == "LicenseRef-CyberControl-" + Slug(Collapse(value))
  {
    ScanIffDerives(Tokens(Collapse(value)));
  }
}
