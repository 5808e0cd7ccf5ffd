/** JSON documents as the Python tools hold them after `json.loads`. */
module JsonValues {

  datatype Json =
    | JNull
    | JBool(b: bool)
    | JNum(n: real)
    | JStr(s: string)
    | JArr(items: seq<Json>)
    | JObj(fields: map<string, Json>)

  /** `document.get(key)`, where a missing key reads as `None`. */
  function Get(fields: map<string, Json>, key: string): Json {
    if key in fields then fields[key] else JNull
  }

  /** Python truthiness. */
  predicate Truthy(j: Json) {
    match j
    case JNull => false
    case JBool(b) => b
    case JNum(n) => n != 0.0
    case JStr(s) => s != ""
    case JArr(xs) => xs != []
    case JObj(m) => m != map[]
  }

  lemma TruthyIff(j: Json)
    ensures Truthy(j) <==> j !in {JNull, JBool(false), JNum(0.0), JStr(""), JArr([]), JObj(map[])}
  {
  }

  /** The representative of a value under Python's `==`, which identifies `True` with 1 and
      `False` with 0 at every depth (and 1 with 1.0, already one `JNum` here). */
  function Canon(j: Json): Json {
    match j
    case JBool(b) => JNum(if b then 1.0 else 0.0)
    case JArr(xs) => JArr(seq(|xs|, i requires 0 <= i < |xs| => Canon(xs[i])))
    case JObj(m) => JObj(map k | k in m :: Canon(m[k]))
    case _ => j
  }

  /** Python's `==` between two JSON values. */
  predicate PyEq(a: Json, b: Json) {
    Canon(a) == Canon(b)
  }

  function CanonAll(values: seq<Json>): (r: seq<Json>)
    ensures |r| == |values| && forall i | 0 <= i < |r| :: r[i] == Canon(values[i])
  {
    seq(|values|, i requires 0 <= i < |values| => Canon(values[i]))
  }

  /** The number a value stands for in comparisons. */
  function AsNumber(v: Json): real
    requires v.JNum? || v.JBool?
  {
    if v.JNum? then v.n else if v.b then 1.0 else 0.0
  }

  /** Python's `==`, constructor by constructor: numbers and booleans by number, all else by shape. */
  predicate SameValue(a: Json, b: Json) {
    match a
    case JNull => b.JNull?
    case JBool(_) => (b.JBool? || b.JNum?) && AsNumber(a) == AsNumber(b)
    case JNum(_) => (b.JBool? || b.JNum?) && AsNumber(a) == AsNumber(b)
    case JStr(s) => b == JStr(s)
    case JArr(xs) => b.JArr? && |xs| == |b.items| && forall i | 0 <= i < |xs| :: SameValue(xs[i], b.items[i])
    case JObj(m) => b.JObj? && m.Keys == b.fields.Keys && forall f | f in m :: SameValue(m[f], b.fields[f])
  }

  lemma {:induction false} PyEqIff(a: Json, b: Json)
    ensures PyEq(a, b) <==> SameValue(a, b)
    decreases a, 1
  {
    match a
    case JArr(xs) =>
      if b.JArr? {
        assert |Canon(a).items| == |xs| && |Canon(b).items| == |b.items|;
        if |xs| == |b.items| {
          ItemsIff(xs, b.items);
        }
      }
    case JObj(m) =>
      if b.JObj? {
        assert Canon(a).fields.Keys == m.Keys && Canon(b).fields.Keys == b.fields.Keys;
        if m.Keys == b.fields.Keys {
          FieldsIff(m, b.fields);
        }
      }
    case _ =>
  }

  lemma {:induction false} ItemsIff(xs: seq<Json>, ys: seq<Json>)
    requires |xs| == |ys|
    ensures PyEq(JArr(xs), JArr(ys)) <==> forall i | 0 <= i < |xs| :: SameValue(xs[i], ys[i])
    decreases JArr(xs), 0
  {
    var cs, ds := Canon(JArr(xs)).items, Canon(JArr(ys)).items;
    forall i | 0 <= i < |xs| ensures cs[i] == ds[i] <==> SameValue(xs[i], ys[i]) {
      PyEqIff(xs[i], ys[i]);
    }
  }

  lemma {:induction false} FieldsIff(m: map<string, Json>, n: map<string, Json>)
    requires m.Keys == n.Keys
    ensures PyEq(JObj(m), JObj(n)) <==> forall f | f in m :: SameValue(m[f], n[f])
    decreases JObj(m), 0
  {
    var cs, ds := Canon(JObj(m)).fields, Canon(JObj(n)).fields;
    assert cs.Keys == m.Keys && ds.Keys == n.Keys;
    forall f | f in m ensures cs[f] == ds[f] <==> SameValue(m[f], n[f]) {
      PyEqIff(m[f], n[f]);
    }
  }

  predicate HasBoolean(v: Json) {
    match v
    case JBool(_) => true
    case JArr(xs) => exists x | x in xs :: HasBoolean(x)
    case JObj(m) => exists f | f in m :: HasBoolean(m[f])
    case _ => false
  }

  /** Without booleans, Python's equality is identity. */
  lemma {:induction false} SameIsEqual(a: Json, b: Json)
    requires SameValue(a, b) && !HasBoolean(a) && !HasBoolean(b)
    ensures a == b
  {
    match a
    case JArr(xs) =>
      forall i | 0 <= i < |xs| ensures xs[i] == b.items[i] {
        SameIsEqual(xs[i], b.items[i]);
      }
    case JObj(m) =>
      forall f | f in m ensures m[f] == b.fields[f] {
        SameIsEqual(m[f], b.fields[f]);
      }
    case _ =>
  }

  /** Python's `==` between two lists. */
  predicate PyEqAll(a: seq<Json>, b: seq<Json>) {
    |a| == |b| && forall i | 0 <= i < |a| :: PyEq(a[i], b[i])
  }

  /** Equal objects have equal fields. */
  lemma PyEqFields(a: Json, b: Json, key: string)
    requires PyEq(a, b) && a.JObj?
    ensures b.JObj? && PyEq(Get(a.fields, key), Get(b.fields, key))
  {
    assert b.JObj?;
    assert Canon(a).fields.Keys == a.fields.Keys && Canon(b).fields.Keys == b.fields.Keys;
    if key in a.fields {
      assert Canon(a).fields[key] == Canon(a.fields[key]);
      assert Canon(b).fields[key] == Canon(b.fields[key]);
    }
  }
}
