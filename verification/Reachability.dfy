/** What a relation leads to from given starting points, in finitely many steps. */
module Reachability {

  ghost predicate LeadsIn<T(!new)>(starts: iset<T>, steps: iset<(T, T)>, x: T, n: nat)
    decreases n
  {
    if n == 0 then x in starts else exists y :: (y, x) in steps && LeadsIn(starts, steps, y, n - 1)
  }

  ghost predicate Leads<T(!new)>(starts: iset<T>, steps: iset<(T, T)>, x: T) {
    exists n: nat :: LeadsIn(starts, steps, x, n)
  }

  lemma LeadsToStart<T(!new)>(starts: iset<T>, steps: iset<(T, T)>, x: T)
    requires x in starts
    ensures Leads(starts, steps, x)
  {
    assert LeadsIn(starts, steps, x, 0);
  }

  lemma LeadsOn<T(!new)>(starts: iset<T>, steps: iset<(T, T)>, x: T, y: T)
    requires Leads(starts, steps, x) && (x, y) in steps
    ensures Leads(starts, steps, y)
  {
    var n: nat :| LeadsIn(starts, steps, x, n);
    assert LeadsIn(starts, steps, y, n + 1);
  }

  /** The last step to a point, unless it is a starting point. */
  lemma LastStep<T(!new)>(starts: iset<T>, steps: iset<(T, T)>, x: T)
    requires Leads(starts, steps, x)
    ensures x in starts || exists y :: (y, x) in steps && Leads(starts, steps, y)
  {
    var n: nat :| LeadsIn(starts, steps, x, n);
    if n > 0 {
      var y :| (y, x) in steps && LeadsIn(starts, steps, y, n - 1);
      assert Leads(starts, steps, y);
    }
  }

  ghost predicate Closed<T(!new)>(starts: iset<T>, steps: iset<(T, T)>, s: iset<T>) {
    starts <= s && forall x, y | x in s && (x, y) in steps :: y in s
  }

  /** Every closed set holds all that is led to: `Leads` is the least closed set. */
  lemma {:induction false} ClosedHolds<T(!new)>(starts: iset<T>, steps: iset<(T, T)>, s: iset<T>, x: T, n: nat)
    requires Closed(starts, steps, s) && LeadsIn(starts, steps, x, n)
    ensures x in s
    decreases n
  {
    if n > 0 {
      var y :| (y, x) in steps && LeadsIn(starts, steps, y, n - 1);
      ClosedHolds(starts, steps, s, y, n - 1);
    }
  }

  lemma ClosedHoldsAll<T(!new)>(starts: iset<T>, steps: iset<(T, T)>, s: iset<T>)
    requires Closed(starts, steps, s)
    ensures forall x | Leads(starts, steps, x) :: x in s
  {
    forall x | Leads(starts, steps, x) ensures x in s {
      var n: nat :| LeadsIn(starts, steps, x, n);
      ClosedHolds(starts, steps, s, x, n);
    }
  }
}
