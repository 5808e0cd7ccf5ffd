/** `ts_literal` of tools/export_contracts.py: how a JSON constant is printed, and what the printed text
    means as a TypeScript type. */
module Literals {
  import opened JsonValues
  import opened Text

  // ---------------------------------------------------------------------------------------------
  // Nested strings

  /** The characters `str.isprintable` rejects; the set depends on the Unicode version of Python. */
  ghost const UNPRINTABLE: iset<char>

  /** Python escapes the character as `\U` and eight digits, in which TypeScript reads a plain `U`. */
  ghost predicate Misread(c: char) {
    c as int >= 0x1_0000 && c in UNPRINTABLE
  }

  ghost predicate ReadsBack(s: string) {
    forall c | c in s :: !Misread(c)
  }

  /** What TypeScript reads in `repr(s)`. */
  ghost function AsRead(s: string): string {
    if s == "" then "" else (if Misread(s[0]) then "U" + HexDigits(s[0] as int, 8) else [s[0]]) + AsRead(s[1..])
  }

  lemma {:induction false} AsReadLength(s: string)
    ensures |AsRead(s)| >= |s| && ReadsBack(AsRead(s))
    ensures |AsRead(s)| == |s| <==> ReadsBack(s)
    ensures AsRead(s) == s <==> ReadsBack(s)
  {
    if s != "" {
      AsReadLength(s[1..]);
      assert s == [s[0]] + s[1..];
      assert ReadsBack(s) <==> !Misread(s[0]) && ReadsBack(s[1..]);
    }
  }

  // ---------------------------------------------------------------------------------------------
  // Constants

  /** No two names of the object are read as one. */
  ghost predicate NamesStayApart(m: map<string, Json>) {
    forall f, g | f in m && g in m && f != g :: AsRead(f) != AsRead(g)
  }

  /** The type that `str(value)` denotes: `None`, `True` and `False` are no TypeScript types, a list is a
      tuple, and a dict is an object type, which further fields do not leave. */
  ghost predicate NestedHolds(value: Json, v: Json) {
    match value
    case JNull => false
    case JBool(_) => false
    case JNum(_) => v == value
    case JStr(s) => v == JStr(AsRead(s))
    case JArr(xs) => v.JArr? && |v.items| == |xs| && forall i | 0 <= i < |xs| :: NestedHolds(xs[i], v.items[i])
    case JObj(m) =>
      && v.JObj? && NamesStayApart(m)
      && forall f | f in m :: AsRead(f) in v.fields && NestedHolds(m[f], v.fields[AsRead(f)])
  }

  predicate IsAtom(value: Json) {
    value.JNull? || value.JBool? || value.JStr?
  }

  /** The type that `ts_literal(value)` denotes. */
  ghost predicate LiteralHolds(value: Json, v: Json) {
    if IsAtom(value) then v == value else NestedHolds(value, v)
  }

  ghost predicate NestedPrints(value: Json) {
    match value
    case JNull => false
    case JBool(_) => false
    case JNum(_) => true
    case JStr(s) => ReadsBack(s)
    case JArr(xs) => forall x | x in xs :: NestedPrints(x)
    case JObj(m) => forall f | f in m :: ReadsBack(f) && NestedPrints(m[f])
  }

  /** Nothing inside the constant is printed as something else. */
  ghost predicate PrintsAsTypeScript(value: Json) {
    IsAtom(value) || NestedPrints(value)
  }

  lemma {:induction false} NestedHoldsOfItself(value: Json)
    ensures NestedHolds(value, value) <==> NestedPrints(value)
  {
    match value
    case JStr(s) => AsReadLength(s);
    case JArr(xs) =>
      forall i | 0 <= i < |xs| ensures NestedHolds(xs[i], xs[i]) <==> NestedPrints(xs[i]) {
        NestedHoldsOfItself(xs[i]);
      }
    case JObj(m) =>
      forall f | f in m
        ensures NestedHolds(m[f], m[f]) <==> NestedPrints(m[f])
        ensures AsRead(AsRead(f)) == AsRead(f) && (AsRead(f) == f <==> ReadsBack(f))
      {
        NestedHoldsOfItself(m[f]);
        AsReadLength(f);
        AsReadLength(AsRead(f));
      }
    case _ =>
  }

  /** The type of a constant holds of the constant exactly when it prints. */
  lemma HoldsOfItself(value: Json)
    ensures LiteralHolds(value, value) <==> PrintsAsTypeScript(value)
  {
    NestedHoldsOfItself(value);
  }

  lemma NameReadsBack(m: map<string, Json>, f: string)
    requires NamesStayApart(m) && f in m && AsRead(f) in m
    ensures AsRead(f) == f
  {
    AsReadLength(f);
    AsReadLength(AsRead(f));
  }

  lemma EqualItems(xs: seq<Json>, ys: seq<Json>, i: nat)
    requires PyEq(JArr(xs), JArr(ys)) && i < |xs|
    ensures |xs| == |ys| && PyEq(xs[i], ys[i])
  {
    assert Canon(JArr(xs)).items == Canon(JArr(ys)).items;
    assert Canon(JArr(xs)).items[i] == Canon(xs[i]);
    assert Canon(JArr(ys)).items[i] == Canon(ys[i]);
  }

  lemma EqualFields(m: map<string, Json>, n: map<string, Json>)
    requires PyEq(JObj(m), JObj(n))
    ensures m.Keys == n.Keys && forall f | f in m :: PyEq(m[f], n[f])
  {
    assert Canon(JObj(m)).fields.Keys == m.Keys && Canon(JObj(n)).fields.Keys == n.Keys;
    forall f | f in m ensures PyEq(m[f], n[f]) {
      assert Canon(JObj(m)).fields[f] == Canon(m[f]) && Canon(JObj(n)).fields[f] == Canon(n[f]);
    }
  }

  lemma FieldHolds(m: map<string, Json>, n: map<string, Json>, f: string)
    requires NestedHolds(JObj(m), JObj(n)) && m.Keys == n.Keys && f in m
    ensures NestedHolds(m[f], n[f])
  {
    NameReadsBack(m, f);
  }

  /** The type of a constant holds of a value that is equal to it for Python only if it is the same. */
  lemma {:induction false} EqualHolds(value: Json, v: Json)
    requires PyEq(value, v) && NestedHolds(value, v)
    ensures value == v
    decreases value, 1
  {
    match value
    case JArr(xs) =>
      forall i | 0 <= i < |xs| ensures PyEq(xs[i], v.items[i]) {
        EqualItems(xs, v.items, i);
      }
      EqualItemsHold(xs, v.items);
    case JObj(m) =>
      EqualFields(m, v.fields);
      forall f | f in m ensures NestedHolds(m[f], v.fields[f]) {
        FieldHolds(m, v.fields, f);
      }
      EqualFieldsHold(m, v.fields);
    case _ =>
  }

  lemma {:induction false} EqualItemsHold(xs: seq<Json>, ys: seq<Json>)
    requires |xs| == |ys| && forall i | 0 <= i < |xs| :: PyEq(xs[i], ys[i]) && NestedHolds(xs[i], ys[i])
    ensures xs == ys
    decreases JArr(xs), 0
  {
    forall i | 0 <= i < |xs| ensures xs[i] == ys[i] {
      EqualHolds(xs[i], ys[i]);
    }
  }

  lemma {:induction false} EqualFieldsHold(m: map<string, Json>, n: map<string, Json>)
    requires m.Keys == n.Keys && forall f | f in m :: PyEq(m[f], n[f]) && NestedHolds(m[f], n[f])
    ensures m == n
    decreases JObj(m), 0
  {
    forall f | f in m ensures m[f] == n[f] {
      EqualHolds(m[f], n[f]);
    }
  }

  // ---------------------------------------------------------------------------------------------
  // Exact constants

  predicate HasObject(value: Json) {
    match value
    case JArr(xs) => exists x | x in xs :: HasObject(x)
    case JObj(_) => true
    case _ => false
  }

  ghost predicate IsExactLiteral(value: Json) {
    PrintsAsTypeScript(value) && !HasObject(value)
  }

  lemma {:induction false} NestedHoldsOnlyOf(value: Json, v: Json)
    requires NestedPrints(value) && !HasObject(value) && NestedHolds(value, v)
    ensures v == value
  {
    match value
    case JStr(s) => AsReadLength(s);
    case JArr(xs) =>
      forall i | 0 <= i < |xs| ensures v.items[i] == xs[i] {
        NestedHoldsOnlyOf(xs[i], v.items[i]);
      }
    case _ =>
  }

  lemma LongerThanAll(names: set<string>) returns (n: nat)
    ensures forall f | f in names :: |f| < n
  {
    if names == {} {
      n := 0;
    } else {
      var f :| f in names;
      n := LongerThanAll(names - {f});
      n := if n > |f| then n else |f| + 1;
    }
  }

  /** All names of fields, at any depth. */
  function NamesOf(v: Json): set<string> {
    match v
    case JArr(xs) => set i, f | 0 <= i < |xs| && f in NamesOf(xs[i]) :: f
    case JObj(m) => m.Keys + set g, f | g in m && f in NamesOf(m[g]) :: f
    case _ => {}
  }

  /** `v` with one more field wherever `value` is printed as an object type. */
  function Widened(value: Json, v: Json, name: string, x: Json): Json {
    match value
    case JArr(xs) =>
      if v.JArr? && |v.items| == |xs|
      then JArr(seq(|xs|, i requires 0 <= i < |xs| => Widened(xs[i], v.items[i], name, x)))
      else v
    case JObj(_) => if v.JObj? then JObj(v.fields[name := x]) else v
    case _ => v
  }

  /** An object type is open: further fields do not leave it. */
  lemma {:induction false} WidenedHolds(value: Json, v: Json, name: string, x: Json)
    requires NestedHolds(value, v) && name !in NamesOf(v)
    ensures NestedHolds(value, Widened(value, v, name, x))
  {
    if value.JArr? {
      forall i | 0 <= i < |value.items|
        ensures NestedHolds(value.items[i], Widened(value.items[i], v.items[i], name, x))
      {
        WidenedHolds(value.items[i], v.items[i], name, x);
      }
    }
  }

  lemma {:induction false} WidenedDiffers(value: Json, v: Json, name: string, x: Json, y: Json)
    requires NestedHolds(value, v) && HasObject(value) && x != y
    ensures Widened(value, v, name, x) != Widened(value, v, name, y)
  {
    if value.JArr? {
      var i :| 0 <= i < |value.items| && HasObject(value.items[i]);
      WidenedDiffers(value.items[i], v.items[i], name, x, y);
      assert Widened(value, v, name, x).items[i] != Widened(value, v, name, y).items[i];
    } else {
      assert Widened(value, v, name, x).fields[name] != Widened(value, v, name, y).fields[name];
    }
  }

  function Numbered(value: Json, v: Json, name: string, k: nat): Json {
    Widened(value, v, name, JNum(k as real))
  }

  /** All but finitely many of the widened values avoid a finite set. */
  lemma WidenedBeyond(value: Json, v: Json, name: string, avoid: set<Json>) returns (n: nat)
    requires NestedHolds(value, v) && HasObject(value)
    ensures forall k: nat | k >= n :: Numbered(value, v, name, k) !in avoid
  {
    if avoid == {} {
      n := 0;
    } else {
      var w :| w in avoid;
      n := WidenedBeyond(value, v, name, avoid - {w});
      if exists k: nat :: k >= n && Numbered(value, v, name, k) == w {
        var k: nat :| k >= n && Numbered(value, v, name, k) == w;
        forall j: nat | j > k ensures Numbered(value, v, name, j) != w {
          WidenedDiffers(value, v, name, JNum(k as real), JNum(j as real));
        }
        n := k + 1;
      }
    }
  }

  /** So no finite set holds all that an object type holds of, if it holds of anything. */
  lemma HoldsOfMore(value: Json, v: Json, avoid: set<Json>) returns (more: Json)
    requires NestedHolds(value, v) && HasObject(value)
    ensures NestedHolds(value, more) && more !in avoid
  {
    var longer := LongerThanAll(NamesOf(v));
    var name := seq(longer, _ => 'x');
    assert |name| == longer;
    var n := WidenedBeyond(value, v, name, avoid);
    more := Numbered(value, v, name, n);
    WidenedHolds(value, v, name, JNum(n as real));
  }

  /** What a type without objects holds of prints, and has no objects. */
  lemma {:induction false} ReadValuePrints(value: Json, v: Json)
    requires NestedHolds(value, v) && !HasObject(value)
    ensures NestedPrints(v) && !HasObject(v)
  {
    match value
    case JStr(s) => AsReadLength(s);
    case JArr(xs) =>
      forall i | 0 <= i < |xs| ensures NestedPrints(v.items[i]) && !HasObject(v.items[i]) {
        ReadValuePrints(xs[i], v.items[i]);
      }
    case _ =>
  }

  /** The union of the types of the values. */
  ghost predicate UnionHolds(values: seq<Json>, v: Json) {
    exists y | y in values :: LiteralHolds(y, v)
  }

  ghost predicate UnionIsExact(values: seq<Json>) {
    forall v :: UnionHolds(values, v) <==> v in values
  }

  lemma ExactOnlyIf(values: seq<Json>, x: Json)
    requires UnionIsExact(values) && x in values
    ensures IsExactLiteral(x)
  {
    assert UnionHolds(values, x);
    var y :| y in values && LiteralHolds(y, x);
    if !IsAtom(x) {
      if HasObject(y) {
        var more := HoldsOfMore(y, x, set z | z in values);
        assert UnionHolds(values, more);
        assert false;
      }
      ReadValuePrints(y, x);
    }
  }

  lemma HoldsOnlyOf(value: Json, v: Json)
    requires IsExactLiteral(value)
    ensures LiteralHolds(value, v) <==> v == value
  {
    HoldsOfItself(value);
    if !IsAtom(value) && NestedHolds(value, v) {
      NestedHoldsOnlyOf(value, v);
    }
  }

  /** A union of constants holds of the constants and nothing else exactly when each of them prints and no
      object, at any depth, leaves room for further fields. */
  lemma UnionExactIff(values: seq<Json>)
    ensures UnionIsExact(values) <==> forall x | x in values :: IsExactLiteral(x)
  {
    if UnionIsExact(values) {
      forall x | x in values ensures IsExactLiteral(x) {
        ExactOnlyIf(values, x);
      }
    } else if forall x | x in values :: IsExactLiteral(x) {
      forall y, v | y in values ensures LiteralHolds(y, v) <==> v == y {
        HoldsOnlyOf(y, v);
      }
      assert forall v :: UnionHolds(values, v) <==> v in values;
    }
  }

  /** The same for a single constant. */
  lemma ExactIff(value: Json)
    ensures (forall v :: LiteralHolds(value, v) <==> v == value) <==> IsExactLiteral(value)
  {
    UnionExactIff([value]);
    assert forall v :: UnionHolds([value], v) <==> LiteralHolds(value, v);
    assert forall v :: v in [value] <==> v == value;
  }
}
