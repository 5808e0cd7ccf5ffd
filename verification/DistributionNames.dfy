/** Distribution names as tools/complete_python_sbom_license_evidence.py compares them. */
module DistributionNames {
  import opened Text

  predicate IsSeparator(c: char) {
    c == '-' || c == '_' || c == '.'
  }

  function Strip(s: string): string {
    if s != "" && IsSpace(s[0]) then Strip(s[1..])
    else if s != "" && IsSpace(s[|s| - 1]) then Strip(s[..|s| - 1])
    else s
  }

  function Lower(s: string): string {
    seq(|s|, i requires 0 <= i < |s| => if 'A' <= s[i] <= 'Z' then (s[i] as int + 32) as char else s[i])
  }

  /** `re.sub(r"[-_.]+", "-", s)`; `within` says that a run of separators has begun. */
  function CollapseSeparators(s: string, within: bool): string {
    if s == "" then ""
    else if IsSeparator(s[0]) then (if within then "" else "-") + CollapseSeparators(s[1..], true)
    else [s[0]] + CollapseSeparators(s[1..], false)
  }

  /** `_normalized_name` */
  function NormalizedName(s: string): string {
    CollapseSeparators(Lower(Strip(s)), false)
  }

  // ---------------------------------------------------------------------------------------------
  // What the normalized name ignores, and what it keeps

  predicate SameLetter(a: char, b: char) {
    a == b || ('a' <= a <= 'z' && b as int + 32 == a as int) || ('a' <= b <= 'z' && a as int + 32 == b as int)
  }

  /** The same text but for the case of ASCII letters. */
  predicate SameLetters(s: string, t: string) {
    |s| == |t| && forall i | 0 <= i < |s| :: SameLetter(s[i], t[i])
  }

  lemma {:induction false} StripSameLetters(s: string, t: string)
    requires SameLetters(s, t)
    ensures SameLetters(Strip(s), Strip(t))
    decreases |s|
  {
    if s != "" {
      assert SameLetter(s[0], t[0]) && SameLetter(s[|s| - 1], t[|s| - 1]);
      if IsSpace(s[0]) {
        StripSameLetters(s[1..], t[1..]);
      } else if IsSpace(s[|s| - 1]) {
        StripSameLetters(s[..|s| - 1], t[..|t| - 1]);
      }
    }
  }

  lemma LowerSameLetters(s: string, t: string)
    requires SameLetters(s, t)
    ensures Lower(s) == Lower(t)
  {
    forall i | 0 <= i < |s| ensures Lower(s)[i] == Lower(t)[i] {
      assert SameLetter(s[i], t[i]);
    }
  }

  /** Names are compared without regard to ASCII case. */
  lemma NameIgnoresCase(s: string, t: string)
    requires SameLetters(s, t)
    ensures NormalizedName(s) == NormalizedName(t)
  {
    StripSameLetters(s, t);
    LowerSameLetters(Strip(s), Strip(t));
  }

  predicate AllBlank(s: string) {
    forall c | c in s :: IsSpace(c)
  }

  predicate BareEdges(s: string) {
    s == "" || (!IsSpace(s[0]) && !IsSpace(s[|s| - 1]))
  }

  lemma {:induction false} StripLeft(before: string, s: string)
    requires AllBlank(before)
    ensures Strip(before + s) == Strip(s)
  {
    if before == "" {
      assert before + s == s;
    } else {
      assert before[0] in before && (before + s)[1..] == before[1..] + s && forall c | c in before[1..] :: c in before;
      StripLeft(before[1..], s);
    }
  }

  lemma {:induction false} StripRight(s: string, after: string)
    requires BareEdges(s) && AllBlank(after)
    ensures Strip(s + after) == s
  {
    if s == "" {
      StripLeft(after, "");
      assert s + after == after + "";
    } else if after == "" {
      assert s + after == s;
    } else {
      var front := after[..|after| - 1];
      assert after[|after| - 1] in after && forall c | c in front :: c in after;
      assert (s + after)[..|s + after| - 1] == s + front;
      StripRight(s, front);
    }
  }

  /** Blanks around a name do not count. */
  lemma NameIgnoresBlanks(before: string, s: string, after: string)
    requires AllBlank(before) && BareEdges(s) && AllBlank(after)
    ensures NormalizedName(before + (s + after)) == NormalizedName(s)
  {
    StripLeft(before, s + after);
    StripRight(s, after);
    StripRight(s, "");
    assert s + "" == s;
  }

  predicate AllSeparators(run: string) {
    run != "" && forall c | c in run :: c == '-' || c == '_' || c == '.'
  }

  lemma {:induction false} CollapseRun(run: string, rest: string, within: bool)
    requires AllSeparators(run)
    ensures CollapseSeparators(run + rest, within) == (if within then "" else "-") + CollapseSeparators(rest, true)
  {
    assert (run + rest)[1..] == run[1..] + rest && run[0] in run;
    if |run| > 1 {
      assert forall c | c in run[1..] :: c in run;
      CollapseRun(run[1..], rest, true);
    } else {
      assert run[1..] + rest == rest;
    }
  }

  /** The text ends in a separator, or it is empty and one came before. */
  predicate EndsWithin(a: string, within: bool) {
    if a == "" then within else IsSeparator(a[|a| - 1])
  }

  lemma CollapseHead(c: char, s: string, within: bool)
    ensures CollapseSeparators([c] + s, within) ==
            (if !IsSeparator(c) then [c] else if within then "" else "-") + CollapseSeparators(s, IsSeparator(c))
  {
    assert ([c] + s)[1..] == s;
  }

  lemma {:induction false} CollapseAppend(a: string, b: string, within: bool)
    ensures CollapseSeparators(a + b, within) ==
            CollapseSeparators(a, within) + CollapseSeparators(b, EndsWithin(a, within))
  {
    if a == "" {
      assert a + b == b;
    } else {
      var c, rest := a[0], a[1..];
      assert a == [c] + rest && a + b == [c] + (rest + b);
      CollapseHead(c, rest, within);
      CollapseHead(c, rest + b, within);
      CollapseAppend(rest, b, IsSeparator(c));
    }
  }

  lemma LowerAppend(a: string, b: string)
    ensures Lower(a + b) == Lower(a) + Lower(b)
  {
  }

  lemma LowerRun(run: string)
    requires AllSeparators(run)
    ensures Lower(run) == run
  {
    assert forall i | 0 <= i < |run| :: run[i] in run;
  }

  /** A run of separators counts as one hyphen, whichever they are and however many. */
  lemma NameIgnoresSeparators(a: string, run: string, b: string)
    requires AllSeparators(run) && BareEdges(a) && BareEdges(b)
    ensures NormalizedName(a + (run + b)) == NormalizedName(a + ("-" + b))
  {
    BareJoin(a, run, b);
    BareJoin(a, "-", b);
    LowerRun(run);
    LowerRun("-");
    CollapseAppend(Lower(a), run + Lower(b), false);
    CollapseAppend(Lower(a), "-" + Lower(b), false);
    var within := EndsWithin(Lower(a), false);
    CollapseRun(run, Lower(b), within);
    CollapseRun("-", Lower(b), within);
  }

  lemma BareJoin(a: string, run: string, b: string)
    requires AllSeparators(run) && BareEdges(a) && BareEdges(b)
    ensures NormalizedName(a + (run + b)) == CollapseSeparators(Lower(a) + (Lower(run) + Lower(b)), false)
  {
    var s := a + (run + b);
    assert run[0] in run && run[|run| - 1] in run;
    StripRight(s, "");
    assert s + "" == s;
    LowerAppend(a, run + b);
    LowerAppend(run, b);
  }

  predicate IsLowerWord(s: string) {
    s != "" && forall c | c in s :: 'a' <= c <= 'z' || '0' <= c <= '9'
  }

  /** Lower-case names without separators stay. */
  lemma NameKeepsWord(a: string)
    requires IsLowerWord(a)
    ensures BareEdges(a) && NormalizedName(a) == a
  {
    assert a[0] in a && a[|a| - 1] in a;
    WordStays(a, false);
    StripRight(a, "");
    assert a + "" == a;
  }

  /** And so they do on both sides of a hyphen. */
  lemma NameKeepsHyphen(a: string, b: string)
    requires IsLowerWord(a) && IsLowerWord(b)
    ensures NormalizedName(a + ("-" + b)) == a + ("-" + b)
  {
    NameKeepsWord(a);
    NameKeepsWord(b);
    WordStays(a, false);
    WordStays(b, true);
    BareJoin(a, "-", b);
    LowerRun("-");
    CollapseAppend(a, "-" + b, false);
    assert a[|a| - 1] in a && !EndsWithin(a, false);
    CollapseRun("-", b, false);
  }

  lemma {:induction false} WordStays(a: string, within: bool)
    requires forall c | c in a :: 'a' <= c <= 'z' || '0' <= c <= '9'
    ensures Lower(a) == a && CollapseSeparators(a, within) == a
  {
    assert forall i | 0 <= i < |a| :: a[i] in a;
    if a != "" {
      assert forall c | c in a[1..] :: c in a;
      WordStays(a[1..], false);
    }
  }
}
