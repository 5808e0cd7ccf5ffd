/** Sequences without duplicates, and Python's `len(set(s)) == len(s)` test for them. */
module Distinct {

  predicate NoDuplicates<T(==)>(s: seq<T>) {
    forall i, j | 0 <= i < j < |s| :: s[i] != s[j]
  }

  function Elements<T>(s: seq<T>): set<T> {
    set x | x in s
  }

  lemma {:induction false} ElementsCount<T>(s: seq<T>)
    ensures |Elements(s)| <= |s|
    ensures |Elements(s)| == |s| <==> NoDuplicates(s)
  {
    if s != [] {
      var front, last := s[..|s| - 1], s[|s| - 1];
      ElementsCount(front);
      if last in front {
        assert Elements(s) == Elements(front);
        var i :| 0 <= i < |front| && front[i] == last;
        assert s[i] == s[|s| - 1];
      } else {
        assert Elements(s) == Elements(front) + {last};
        assert NoDuplicates(s) <==> NoDuplicates(front) by {
          assert forall i | 0 <= i < |front| :: s[i] == front[i] && s[i] in front;
        }
      }
    }
  }

  lemma {:induction false} OnceEach<T>(s: seq<T>)
    requires NoDuplicates(s)
    ensures forall x :: multiset(s)[x] <= 1
  {
    if s != [] {
      var front, last := s[..|s| - 1], s[|s| - 1];
      OnceEach(front);
      assert s == front + [last] && last !in front;
      assert multiset(front)[last] == 0;
    }
  }

  /** Sequences of equal length and equal elements have duplicates together. */
  lemma SameElementsDistinct<T>(s: seq<T>, t: seq<T>)
    requires NoDuplicates(s) && |s| == |t| && forall x :: x in s <==> x in t
    ensures NoDuplicates(t)
  {
    ElementsCount(s);
    ElementsCount(t);
    assert Elements(s) == Elements(t);
  }

  predicate Never<T(!new)>(s: seq<T>, p: T -> bool) {
    forall i | 0 <= i < |s| :: !p(s[i])
  }

  /** Exactly one element has the property. */
  ghost predicate Once<T(!new)>(s: seq<T>, p: T -> bool) {
    exists i :: OnlyAt(s, p, i)
  }

  ghost predicate OnlyAt<T(!new)>(s: seq<T>, p: T -> bool, i: int) {
    0 <= i < |s| && p(s[i]) && forall j | 0 <= j < |s| && j != i :: !p(s[j])
  }

  lemma OnceStep<T(!new)>(front: seq<T>, last: T, p: T -> bool)
    ensures Once(front + [last], p) <==> if p(last) then Never(front, p) else Once(front, p)
    ensures Never(front + [last], p) <==> !p(last) && Never(front, p)
  {
    var all := front + [last];
    assert all[|front|] == last && forall i | 0 <= i < |front| :: all[i] == front[i];
    if p(last) {
      assert Never(front, p) ==> OnlyAt(all, p, |front|);
      if Once(all, p) {
        var i :| OnlyAt(all, p, i);
        assert i == |front|;
      }
    } else {
      forall i ensures OnlyAt(all, p, i) <==> OnlyAt(front, p, i) {
      }
    }
  }
}
