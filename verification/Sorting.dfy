/** Python's `sorted`: a stable sort by a total preorder, with the facts its callers rely on. */
module Sorting {
  import opened Distinct

  ghost predicate TotalPreorder<T(!new)>(leq: (T, T) -> bool) {
    && (forall x, y :: leq(x, y) || leq(y, x))
    && (forall x, y, z :: leq(x, y) && leq(y, z) ==> leq(x, z))
  }

  ghost predicate Antisymmetric<T(!new)>(leq: (T, T) -> bool) {
    forall x, y :: leq(x, y) && leq(y, x) ==> x == y
  }

  predicate Sorted<T>(leq: (T, T) -> bool, s: seq<T>) {
    forall i, j | 0 <= i < j < |s| :: leq(s[i], s[j])
  }

  /** Puts `x` before the first element it does not exceed. */
  function Insert<T>(leq: (T, T) -> bool, x: T, s: seq<T>): (r: seq<T>)
    ensures multiset(r) == multiset(s) + multiset{x} && |r| == |s| + 1
  {
    if s == [] then [x]
    else if leq(x, s[0]) then [x] + s
    else
      assert s == [s[0]] + s[1..];
      [s[0]] + Insert(leq, x, s[1..])
  }

  function Sort<T>(leq: (T, T) -> bool, s: seq<T>): (r: seq<T>)
    ensures multiset(r) == multiset(s) && |r| == |s|
  {
    if s == [] then []
    else
      assert s == [s[0]] + s[1..];
      Insert(leq, s[0], Sort(leq, s[1..]))
  }

  lemma {:induction false} InsertSorted<T(!new)>(leq: (T, T) -> bool, x: T, s: seq<T>)
    requires TotalPreorder(leq) && Sorted(leq, s)
    ensures Sorted(leq, Insert(leq, x, s))
  {
    if s != [] && !leq(x, s[0]) {
      InsertSorted(leq, x, s[1..]);
      var r := Insert(leq, x, s[1..]);
      forall k | 0 <= k < |r| ensures leq(s[0], r[k]) {
        assert r[k] in multiset(r);
        assert r[k] == x || r[k] in multiset(s[1..]);
      }
    }
  }

  lemma {:induction false} SortSorted<T(!new)>(leq: (T, T) -> bool, s: seq<T>)
    requires TotalPreorder(leq)
    ensures Sorted(leq, Sort(leq, s))
  {
    if s != [] {
      SortSorted(leq, s[1..]);
      InsertSorted(leq, s[0], Sort(leq, s[1..]));
    }
  }

  lemma SortMembers<T>(leq: (T, T) -> bool, s: seq<T>)
    ensures forall x :: x in Sort(leq, s) <==> x in s
  {
    forall x ensures x in Sort(leq, s) <==> x in s {
      assert x in Sort(leq, s) <==> x in multiset(Sort(leq, s));
      assert x in s <==> x in multiset(s);
    }
  }

  /** A sorted sequence is left alone. */
  lemma {:induction false} SortIsIdentity<T(!new)>(leq: (T, T) -> bool, s: seq<T>)
    requires Sorted(leq, s)
    ensures Sort(leq, s) == s
  {
    if s != [] {
      SortIsIdentity(leq, s[1..]);
    }
  }

  lemma SortedHead<T(!new)>(leq: (T, T) -> bool, s: seq<T>, t: seq<T>)
    requires Antisymmetric(leq) && Sorted(leq, s) && Sorted(leq, t) && s != [] && t != []
    requires s[0] in t && t[0] in s
    ensures s[0] == t[0]
  {
    var i :| 0 <= i < |t| && t[i] == s[0];
    var j :| 0 <= j < |s| && s[j] == t[0];
  }

  /** Two sorted arrangements of the same elements are the same sequence. */
  lemma {:induction false} SortedIsUnique<T(!new)>(leq: (T, T) -> bool, s: seq<T>, t: seq<T>)
    requires Antisymmetric(leq) && Sorted(leq, s) && Sorted(leq, t) && multiset(s) == multiset(t)
    ensures s == t
  {
    assert |s| == |multiset(s)| == |t|;
    if s != [] {
      assert s[0] in multiset(t) && t[0] in multiset(s);
      SortedHead(leq, s, t);
      TailsAgree(s, t);
      SortedIsUnique(leq, s[1..], t[1..]);
    }
  }

  lemma TailsAgree<T>(s: seq<T>, t: seq<T>)
    requires s != [] && t != [] && s[0] == t[0] && multiset(s) == multiset(t)
    ensures multiset(s[1..]) == multiset(t[1..])
    ensures s[1..] == t[1..] ==> s == t
  {
    assert s == [s[0]] + s[1..] && t == [t[0]] + t[1..];
    assert multiset(s[1..]) == multiset(s) - multiset{s[0]} == multiset(t[1..]);
  }

  /** Sorting forgets the order of its input. */
  lemma SortIgnoresOrder<T(!new)>(leq: (T, T) -> bool, s: seq<T>, t: seq<T>)
    requires TotalPreorder(leq) && Antisymmetric(leq) && multiset(s) == multiset(t)
    ensures Sort(leq, s) == Sort(leq, t)
  {
    SortSorted(leq, s);
    SortSorted(leq, t);
    SortedIsUnique(leq, Sort(leq, s), Sort(leq, t));
  }

  // ---------------------------------------------------------------------------------------------
  // Strings by code point

  predicate StringLeq(a: string, b: string) {
    a == "" || (b != "" && (a[0] < b[0] || (a[0] == b[0] && StringLeq(a[1..], b[1..]))))
  }

  lemma {:induction false} StringLeqTotal(a: string, b: string)
    ensures StringLeq(a, b) || StringLeq(b, a)
  {
    if a != "" && b != "" {
      StringLeqTotal(a[1..], b[1..]);
    }
  }

  lemma {:induction false} StringLeqTransitive(a: string, b: string, c: string)
    requires StringLeq(a, b) && StringLeq(b, c)
    ensures StringLeq(a, c)
  {
    if a != "" && a[0] == b[0] && b[0] == c[0] {
      StringLeqTransitive(a[1..], b[1..], c[1..]);
    }
  }

  lemma {:induction false} StringLeqAntisymmetric(a: string, b: string)
    requires StringLeq(a, b) && StringLeq(b, a)
    ensures a == b
  {
    if a != "" {
      StringLeqAntisymmetric(a[1..], b[1..]);
      assert a == [a[0]] + a[1..] && b == [b[0]] + b[1..];
    }
  }

  lemma StringOrder()
    ensures TotalPreorder(StringLeq) && Antisymmetric(StringLeq)
  {
    forall a, b ensures StringLeq(a, b) || StringLeq(b, a) {
      StringLeqTotal(a, b);
    }
    forall a, b, c | StringLeq(a, b) && StringLeq(b, c) ensures StringLeq(a, c) {
      StringLeqTransitive(a, b, c);
    }
    forall a, b | StringLeq(a, b) && StringLeq(b, a) ensures a == b {
      StringLeqAntisymmetric(a, b);
    }
  }

  predicate StrictlySorted(s: seq<string>) {
    forall i, j | 0 <= i < j < |s| :: StringLeq(s[i], s[j]) && s[i] != s[j]
  }

  /** `sorted` of a set of strings. */
  method SortSet(elements: set<string>) returns (r: seq<string>)
    ensures StrictlySorted(r)
    ensures forall x :: x in r <==> x in elements
  {
    var list: seq<string> := [];
    var pending := elements;
    while pending != {}
      invariant pending <= elements
      invariant forall x :: x in list <==> x in elements && x !in pending
      invariant NoDuplicates(list)
    {
      var x :| x in pending;
      list, pending := list + [x], pending - {x};
    }
    r := Sort(StringLeq, list);
    StringOrder();
    SortSorted(StringLeq, list);
    SortMembers(StringLeq, list);
    SameElementsDistinct(list, r);
  }

  /** A strictly sorted listing of a set is the only one. */
  lemma {:induction false} StrictListingIsUnique(s: seq<string>, t: seq<string>)
    requires StrictlySorted(s) && StrictlySorted(t) && forall x :: x in s <==> x in t
    ensures s == t
  {
    assert t != [] ==> t[0] in s;
    assert s != [] ==> s[0] in t;
    if s != [] {
      StringLeqAntisymmetric(s[0], t[0]) by {
        StringLeqTotal(s[0], s[0]);
        var i :| 0 <= i < |t| && t[i] == s[0];
        var j :| 0 <= j < |s| && s[j] == t[0];
      }
      forall x ensures x in s[1..] <==> x in t[1..] {
        assert x in s <==> x == s[0] || x in s[1..];
        assert x in t <==> x == t[0] || x in t[1..];
        assert s[0] !in s[1..] && t[0] !in t[1..];
      }
      StrictListingIsUnique(s[1..], t[1..]);
    }
  }

  // ---------------------------------------------------------------------------------------------
  // What the order and the sort are

  /** A prefix comes first; otherwise the first difference decides, by code point. */
  lemma {:induction false} FirstDifference(common: string, a: string, b: string)
    requires a == "" || b == "" || a[0] != b[0]
    ensures StringLeq(common + a, common + b) <==> a == "" || (b != "" && a[0] < b[0])
  {
    if common == "" {
      assert common + a == a && common + b == b;
    } else {
      assert (common + a)[1..] == common[1..] + a && (common + b)[1..] == common[1..] + b;
      FirstDifference(common[1..], a, b);
    }
  }

  function Tie<T>(leq: (T, T) -> bool, x: T, y: T): seq<T> {
    if leq(x, y) && leq(y, x) then [y] else []
  }

  /** The elements that `x` ties with, in order. */
  function Ties<T>(leq: (T, T) -> bool, x: T, s: seq<T>): seq<T> {
    if s == [] then [] else Tie(leq, x, s[0]) + Ties(leq, x, s[1..])
  }

  lemma TiesCons<T>(leq: (T, T) -> bool, x: T, y: T, s: seq<T>)
    ensures Ties(leq, x, [y] + s) == Tie(leq, x, y) + Ties(leq, x, s)
  {
    assert ([y] + s)[1..] == s;
  }

  lemma OneTies<T(!new)>(leq: (T, T) -> bool, x: T, y: T, z: T)
    requires TotalPreorder(leq) && !leq(y, z)
    ensures Tie(leq, x, y) == [] || Tie(leq, x, z) == []
  {
  }

  lemma SwapWithEmpty<T>(a: seq<T>, b: seq<T>, c: seq<T>)
    requires a == [] || b == []
    ensures a + (b + c) == b + (a + c)
  {
  }

  lemma TiesBehind<T>(leq: (T, T) -> bool, x: T, y: T, s: seq<T>, rest: seq<T>)
    requires s != [] && (Tie(leq, x, y) == [] || Tie(leq, x, s[0]) == [])
    requires Ties(leq, x, rest) == Ties(leq, x, [y] + s[1..])
    ensures Ties(leq, x, [s[0]] + rest) == Ties(leq, x, [y] + s)
  {
    TiesCons(leq, x, s[0], rest);
    TiesCons(leq, x, y, s[1..]);
    TiesCons(leq, x, y, s);
    SwapWithEmpty(Tie(leq, x, y), Tie(leq, x, s[0]), Ties(leq, x, s[1..]));
  }

  lemma {:induction false} InsertTies<T(!new)>(leq: (T, T) -> bool, x: T, y: T, s: seq<T>)
    requires TotalPreorder(leq)
    ensures Ties(leq, x, Insert(leq, y, s)) == Ties(leq, x, [y] + s)
  {
    if s != [] && !leq(y, s[0]) {
      InsertTies(leq, x, y, s[1..]);
      OneTies(leq, x, y, s[0]);
      TiesBehind(leq, x, y, s, Insert(leq, y, s[1..]));
    }
  }

  /** Sorting keeps the order of elements that tie. */
  lemma {:induction false} SortIsStable<T(!new)>(leq: (T, T) -> bool, x: T, s: seq<T>)
    requires TotalPreorder(leq)
    ensures Ties(leq, x, Sort(leq, s)) == Ties(leq, x, s)
  {
    if s != [] {
      SortIsStable(leq, x, s[1..]);
      InsertTies(leq, x, s[0], Sort(leq, s[1..]));
      assert ([s[0]] + Sort(leq, s[1..]))[1..] == Sort(leq, s[1..]);
    }
  }
}
