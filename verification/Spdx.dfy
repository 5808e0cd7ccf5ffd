/** License expressions in tools/gate_c_supply_chain.py: the one-pass recogniser and the normaliser. */
module Spdx {
  import opened Text

  // ---------------------------------------------------------------------------------------------
  // Grammar: a subset of the license expressions of Annex D of the SPDX Specification 2.3

  predicate IsAlphanumeric(c: char) {
    'A' <= c <= 'Z' || 'a' <= c <= 'z' || '0' <= c <= '9'
  }

  predicate IsIdChar(c: char) {
    IsAlphanumeric(c) || c == '.' || c == '-'
  }

  /** `SPDX_ID.fullmatch(token)` */
  predicate IsId(token: string) {
    token != "" && IsAlphanumeric(token[0]) && forall c | c in token :: IsIdChar(c)
  }

  predicate IsOperator(token: string) {
    token == "AND" || token == "OR" || token == "WITH"
  }

  /** E ::= O | O op E */
  datatype Expression = Single(operand: Operand) | Binary(left: Operand, op: string, right: Expression)

  /** O ::= id | ( E ) */
  datatype Operand = Id(name: string) | Group(inner: Expression)

  predicate WellFormed(e: Expression) {
    match e
    case Single(o) => WellFormedOperand(o)
    case Binary(o, op, r) => WellFormedOperand(o) && IsOperator(op) && WellFormed(r)
  }

  predicate WellFormedOperand(o: Operand) {
    match o
    case Id(name) => IsId(name)
    case Group(e) => WellFormed(e)
  }

  /** The tokens a derivation spells. */
  function Yield(e: Expression): seq<string> {
    match e
    case Single(o) => YieldOperand(o)
    case Binary(o, op, r) => YieldOperand(o) + [op] + Yield(r)
  }

  function YieldOperand(o: Operand): seq<string> {
    match o
    case Id(name) => [name]
    case Group(e) => ["("] + Yield(e) + [")"]
  }

  ghost predicate Derives(tokens: seq<string>) {
    exists e :: WellFormed(e) && Yield(e) == tokens
  }

  // ---------------------------------------------------------------------------------------------
  // The recogniser

  /** The scan from a given state of the loop to the verdict. */
  function Scan(tokens: seq<string>, expectOperand: bool, depth: nat): bool {
    if tokens == [] then !expectOperand && depth == 0
    else if expectOperand then
      if tokens[0] == "(" then Scan(tokens[1..], true, depth + 1)
      else IsId(tokens[0]) && Scan(tokens[1..], false, depth)
    else if IsOperator(tokens[0]) then Scan(tokens[1..], true, depth)
    else tokens[0] == ")" && depth > 0 && Scan(tokens[1..], false, depth - 1)
  }

  /** `value.replace("(", " ( ").replace(")", " ) ")` */
  function PadParentheses(value: string): string {
    if value == "" then ""
    else (if value[0] == '(' then " ( " else if value[0] == ')' then " ) " else [value[0]]) + PadParentheses(value[1..])
  }

  function Tokens(value: string): seq<string> {
    Split(PadParentheses(value))
  }

  lemma {:induction false} ScanExpression(e: Expression, rest: seq<string>, depth: nat)
    requires WellFormed(e)
    ensures Scan(Yield(e) + rest, true, depth) == Scan(rest, false, depth)
  {
    match e
    case Single(o) => ScanOperand(o, rest, depth);
    case Binary(o, op, r) =>
      assert Yield(e) + rest == YieldOperand(o) + ([op] + (Yield(r) + rest));
      ScanOperand(o, [op] + (Yield(r) + rest), depth);
      assert ([op] + (Yield(r) + rest))[1..] == Yield(r) + rest;
      ScanExpression(r, rest, depth);
  }

  lemma {:induction false} ScanOperand(o: Operand, rest: seq<string>, depth: nat)
    requires WellFormedOperand(o)
    ensures Scan(YieldOperand(o) + rest, true, depth) == Scan(rest, false, depth)
  {
    match o
    case Id(name) =>
      assert ([name] + rest)[1..] == rest;
      assert !IsId("(");
    case Group(e) =>
      var tail := [")"] + rest;
      assert YieldOperand(o) + rest == ["("] + (Yield(e) + tail);
      assert (["("] + (Yield(e) + tail))[1..] == Yield(e) + tail;
      ScanExpression(e, tail, depth + 1);
      assert tail[1..] == rest;
  }

  /** An accepting scan in operand position reads one expression and stops before `)` or the end. */
  lemma {:induction false} ParseExpression(tokens: seq<string>, depth: nat) returns (e: Expression, rest: seq<string>)
    requires Scan(tokens, true, depth)
    ensures WellFormed(e) && tokens == Yield(e) + rest && Scan(rest, false, depth)
    ensures rest == [] || rest[0] == ")"
    decreases |tokens|, 1
  {
    var o, after := ParseOperand(tokens, depth);
    if after == [] || after[0] == ")" {
      return Single(o), after;
    }
    var r, rest' := ParseExpression(after[1..], depth);
    e, rest := Binary(o, after[0], r), rest';
    assert after == [after[0]] + after[1..];
  }

  lemma {:induction false} ParseOperand(tokens: seq<string>, depth: nat) returns (o: Operand, rest: seq<string>)
    requires Scan(tokens, true, depth)
    ensures WellFormedOperand(o) && tokens == YieldOperand(o) + rest && Scan(rest, false, depth) && |rest| < |tokens|
    decreases |tokens|, 0
  {
    if tokens[0] == "(" {
      var e, after := ParseExpression(tokens[1..], depth + 1);
      o, rest := Group(e), after[1..];
      assert tokens == ["("] + (Yield(e) + ([")"] + rest));
    } else {
      o, rest := Id(tokens[0]), tokens[1..];
    }
  }

  /** Soundness and completeness of the automaton with a counter. */
  lemma ScanIffDerives(tokens: seq<string>)
    ensures Scan(tokens, true, 0) <==> Derives(tokens)
  {
    if Scan(tokens, true, 0) {
      var e, rest := ParseExpression(tokens, 0);
      assert rest == [];
      assert tokens == Yield(e);
    }
    if Derives(tokens) {
      var e :| WellFormed(e) && Yield(e) == tokens;
      ScanExpression(e, [], 0);
      assert tokens + [] == tokens;
    }
  }

  /** `_is_spdx_expression` */
  method IsSpdxExpression(value: string) returns (ok: bool)
    ensures ok <==> Derives(Tokens(value))
  {
    var tokens := Tokens(value);
    ScanIffDerives(tokens);
    if tokens == [] {
      return false;
    }
    var expectOperand, depth := true, 0;
    for i := 0 to |tokens|
      invariant depth >= 0
      invariant Scan(tokens[i..], expectOperand, depth) == Scan(tokens, true, 0)
    {
      var part := tokens[i];
      assert tokens[i..][1..] == tokens[i + 1..];
      if expectOperand {
        if part == "(" {
          depth := depth + 1;
        } else if IsId(part) {
          expectOperand := false;
        } else {
          return false;
        }
      } else if part in {"AND", "OR", "WITH"} {
        expectOperand := true;
      } else if part == ")" && depth != 0 {
        depth := depth - 1;
      } else {
        return false;
      }
    }
    return !expectOperand && depth == 0;
  }

  // ---------------------------------------------------------------------------------------------
  // The grammar is unambiguous

  predicate Closed(rest: seq<string>) {
    rest == [] || rest[0] == ")"
  }

  lemma {:induction false} UniqueExpression(e: Expression, f: Expression, restE: seq<string>, restF: seq<string>)
    requires WellFormed(e) && WellFormed(f) && Closed(restE) && Closed(restF)
    requires Yield(e) + restE == Yield(f) + restF
    ensures e == f && restE == restF
    decreases e, 1
  {
    var tailE := if e.Single? then restE else [e.op] + (Yield(e.right) + restE);
    var tailF := if f.Single? then restF else [f.op] + (Yield(f.right) + restF);
    var o, p := if e.Single? then e.operand else e.left, if f.Single? then f.operand else f.left;
    assert Yield(e) + restE == YieldOperand(o) + tailE;
    assert Yield(f) + restF == YieldOperand(p) + tailF;
    UniqueOperand(o, p, tailE, tailF);
    if e.Binary? && f.Binary? {
      assert tailE[1..] == Yield(e.right) + restE && tailF[1..] == Yield(f.right) + restF;
      UniqueExpression(e.right, f.right, restE, restF);
    }
  }

  lemma {:induction false} UniqueOperand(o: Operand, p: Operand, restO: seq<string>, restP: seq<string>)
    requires WellFormedOperand(o) && WellFormedOperand(p)
    requires YieldOperand(o) + restO == YieldOperand(p) + restP
    ensures o == p && restO == restP
    decreases o, 0
  {
    assert (YieldOperand(o) + restO)[0] == (YieldOperand(p) + restP)[0];
    assert !IsId("(");
    match (o, p)
    case (Id(a), Id(b)) =>
      assert restO == (YieldOperand(o) + restO)[1..] && restP == (YieldOperand(p) + restP)[1..];
    case (Group(e), Group(f)) =>
      assert (YieldOperand(o) + restO)[1..] == Yield(e) + ([")"] + restO);
      assert (YieldOperand(p) + restP)[1..] == Yield(f) + ([")"] + restP);
      UniqueExpression(e, f, [")"] + restO, [")"] + restP);
      assert restO == ([")"] + restO)[1..] && restP == ([")"] + restP)[1..];
    case (_, _) =>
  }

  /** Every accepted token list has exactly one derivation. */
  lemma Unambiguous(e: Expression, f: Expression)
    requires WellFormed(e) && WellFormed(f) && Yield(e) == Yield(f)
    ensures e == f
  {
    assert Yield(e) + [] == Yield(e) && Yield(f) + [] == Yield(f);
    UniqueExpression(e, f, [], []);
  }

  // ---------------------------------------------------------------------------------------------
  // The normaliser

  const LICENSE_ALIASES: map<string, string> := map[
    "Apache Software License" := "Apache-2.0",
    "Apache Software License v2" := "Apache-2.0",
    "BSD" := "BSD-3-Clause",
    "BSD License" := "BSD-3-Clause",
    "BSD 3-Clause License" := "BSD-3-Clause",
    "MIT License" := "MIT",
    "MPL 2.0" := "MPL-2.0",
    "Mozilla Public License 2.0 (MPL 2.0)" := "MPL-2.0",
    "Python Software Foundation License" := "PSF-2.0",
    "Zlib License" := "Zlib"]

  /** The length of the longest prefix without identifier characters. */
  function ForeignLength(s: string): (n: nat)
    ensures n <= |s| && (s != "" && !IsIdChar(s[0]) ==> n > 0)
  {
    if s == "" || IsIdChar(s[0]) then 0 else 1 + ForeignLength(s[1..])
  }

  /** `re.sub(r"[^A-Za-z0-9.-]+", "-", s)` */
  function ReplaceForeign(s: string): (r: string)
    ensures forall c | c in r :: IsIdChar(c)
    decreases |s|
  {
    if s == "" then ""
    else if IsIdChar(s[0]) then [s[0]] + ReplaceForeign(s[1..])
    else "-" + ReplaceForeign(s[ForeignLength(s)..])
  }

  /** `s.strip("-")` */
  function StripHyphens(s: string): (r: string)
    ensures forall c | c in r :: c in s
  {
    if s == "" then ""
    else if s[0] == '-' then StripHyphens(s[1..])
    else if s[|s| - 1] == '-' then StripHyphens(s[..|s| - 1])
    else s
  }

  function Slug(cleaned: string): (r: string)
    ensures forall c | c in r :: IsIdChar(c)
  {
    var stripped := StripHyphens(ReplaceForeign(cleaned));
    if stripped == "" then "Unspecified" else stripped
  }

  /** `" ".join(value.strip().split())`; `split` already ignores the outer whitespace. */
  function Collapse(value: string): string {
    Join(' ', Split(value))
  }

  /** `_normalise_license` */
  function Normalise(value: string): string {
    var collapsed := Collapse(value);
    if collapsed == "" then ""
    else
      var cleaned := if collapsed in LICENSE_ALIASES then LICENSE_ALIASES[collapsed] else collapsed;
      if Scan(Tokens(cleaned), true, 0) then cleaned
      else "LicenseRef-CyberControl-" + Slug(cleaned)
  }

  lemma {:induction false} PadIsIdentity(s: string)
    requires '(' !in s && ')' !in s
    ensures PadParentheses(s) == s
  {
    if s != "" {
      PadIsIdentity(s[1..]);
    }
  }

  /** An identifier is one token, an accepted expression, and its own collapsed form. */
  lemma IdentifierIsExpression(id: string)
    requires IsId(id)
    ensures Collapse(id) == id && Tokens(id) == [id] && Scan(Tokens(id), true, 0)
  {
    assert AllWords([id]);
    SplitJoin([id]);
    PadIsIdentity(id);
    assert Scan([id][1..], false, 0);
  }

  predicate IsAliasTarget(s: string) {
    s == "Apache-2.0" || s == "BSD-3-Clause" || s == "MIT" || s == "MPL-2.0" || s == "PSF-2.0" || s == "Zlib"
  }

  lemma TargetIsIdentifier(s: string)
    requires IsAliasTarget(s)
    ensures IsId(s) && s != "BSD"
  {
  }

  /** Every alias but one contains a blank, so it is no identifier. */
  lemma AliasHasBlank(alias: string)
    requires alias in LICENSE_ALIASES
    ensures alias == "BSD" || ' ' in alias
  {
    assert alias == "BSD" || (|alias| > 3 && alias[3] == ' ') || (|alias| > 4 && alias[4] == ' ')
        || (|alias| > 6 && alias[6] == ' ') || (|alias| > 7 && alias[7] == ' ');
  }

  /** Alias targets are identifiers and no aliases themselves. */
  lemma AliasFacts(alias: string)
    requires alias in LICENSE_ALIASES
    ensures IsId(LICENSE_ALIASES[alias]) && LICENSE_ALIASES[alias] !in LICENSE_ALIASES
  {
    var target := LICENSE_ALIASES[alias];
    assert IsAliasTarget(target);
    TargetIsIdentifier(target);
    if target in LICENSE_ALIASES {
      AliasHasBlank(target);
    }
  }

  lemma CustomIdentifier(cleaned: string)
    ensures var r := "LicenseRef-CyberControl-" + Slug(cleaned); IsId(r) && r !in LICENSE_ALIASES
  {
    var r := "LicenseRef-CyberControl-" + Slug(cleaned);
    assert IsId("LicenseRef-CyberControl-");
    assert IsId(r);
    if r in LICENSE_ALIASES {
      AliasHasBlank(r);
    }
  }

  /** Every non-empty result is an expression of the grammar. */
  lemma NormaliseIsExpression(value: string)
    requires Normalise(value) != ""
    ensures Derives(Tokens(Normalise(value)))
  {
    var collapsed := Collapse(value);
    var cleaned := if collapsed in LICENSE_ALIASES then LICENSE_ALIASES[collapsed] else collapsed;
    if !Scan(Tokens(cleaned), true, 0) {
      CustomIdentifier(cleaned);
      IdentifierIsExpression(Normalise(value));
    }
    ScanIffDerives(Tokens(Normalise(value)));
  }

  lemma NormaliseIsIdempotent(value: string)
    ensures Normalise(Normalise(value)) == Normalise(value)
  {
    var collapsed := Collapse(value);
    SplitJoin(Split(value));
    if collapsed != "" {
      var cleaned := if collapsed in LICENSE_ALIASES then LICENSE_ALIASES[collapsed] else collapsed;
      if !Scan(Tokens(cleaned), true, 0) {
        CustomIdentifier(cleaned);
        IdentifierIsExpression(Normalise(value));
      } else if collapsed in LICENSE_ALIASES {
        AliasFacts(collapsed);
        IdentifierIsExpression(cleaned);
      }
    }
  }

  function TokensOf(words: seq<string>): seq<string> {
    if words == [] then [] else Tokens(words[0]) + TokensOf(words[1..])
  }

  lemma {:induction false} PadAppend(a: string, b: string)
    ensures PadParentheses(a + b) == PadParentheses(a) + PadParentheses(b)
  {
    if a == "" {
      assert a + b == b;
    } else {
      assert (a + b)[1..] == a[1..] + b;
      PadAppend(a[1..], b);
    }
  }

  lemma {:induction false} TokensByWord(s: string)
    ensures Tokens(s) == TokensOf(Split(s))
    decreases |s|
  {
    if s == "" {
    } else if IsSpace(s[0]) {
      assert PadParentheses(s)[1..] == PadParentheses(s[1..]);
      TokensByWord(s[1..]);
    } else {
      var n := WordLength(s);
      assert s == s[..n] + s[n..];
      PadAppend(s[..n], s[n..]);
      SplitAppend(PadParentheses(s[..n]), PadParentheses(s[n..]));
      TokensByWord(s[n..]);
      assert Split(s)[1..] == Split(s[n..]);
    }
  }

  /** An expression that is no alias keeps its tokens, so its one derivation: only blanks change. */
  lemma NormaliseKeepsExpression(value: string)
    requires Derives(Tokens(value)) && Collapse(value) !in LICENSE_ALIASES
    ensures Tokens(Normalise(value)) == Tokens(value)
  {
    SplitJoin(Split(value));
    TokensByWord(value);
    TokensByWord(Collapse(value));
    ScanIffDerives(Tokens(value));
    assert Collapse(value) == "" ==> Split(value) == [];
  }
}
