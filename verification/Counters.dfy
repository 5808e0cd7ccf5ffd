/** `collections.Counter`: missing keys count zero, and the values have a total. */
module Counters {

  type Counter<T> = map<T, nat>

  function Count<T>(c: Counter<T>, key: T): nat {
    if key in c then c[key] else 0
  }

  function Bump<T>(c: Counter<T>, key: T): Counter<T> {
    c[key := Count(c, key) + 1]
  }

  /** `sum(c.values())` */
  ghost function Total<T>(c: Counter<T>): nat {
    if c == map[] then 0 else
      var key :| key in c;
      c[key] + Total(c - {key})
  }

  lemma {:induction false} TotalRemove<T>(c: Counter<T>, key: T)
    requires key in c
    ensures Total(c) == c[key] + Total(c - {key})
    decreases c
  {
    var first :| first in c && Total(c) == c[first] + Total(c - {first});
    if first != key {
      TotalRemove(c - {first}, key);
      TotalRemove(c - {key}, first);
      assert c - {first} - {key} == c - {key} - {first};
    }
  }

  lemma TotalBump<T>(c: Counter<T>, key: T)
    ensures Total(Bump(c, key)) == Total(c) + 1
  {
    TotalRemove(Bump(c, key), key);
    if key in c {
      TotalRemove(c, key);
      assert Bump(c, key) - {key} == c - {key};
    } else {
      assert Bump(c, key) - {key} == c;
    }
  }

  method SumValues<T>(c: Counter<T>) returns (total: nat)
    ensures total == Total(c)
  {
    total := 0;
    var pending := c.Keys;
    assert c - (c.Keys - pending) == c;
    while pending != {}
      invariant pending <= c.Keys
      invariant total + Total(c - (c.Keys - pending)) == Total(c)
    {
      var key :| key in pending;
      TotalRemove(c - (c.Keys - pending), key);
      assert c - (c.Keys - pending) - {key} == c - (c.Keys - (pending - {key}));
      total, pending := total + c[key], pending - {key};
    }
    assert c - (c.Keys - pending) == map[];
  }
}
