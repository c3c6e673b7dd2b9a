/**
 * Finite sums over a set of ISBNs. The sum is defined by picking the keys in
 * an arbitrary order, so SumOverRemove is what makes it order-independent:
 * whichever key is taken out first, the total is the same. This is the
 * property a loop over a Java HashMap needs, whose iteration order is not
 * specified.
 */
module Sums {

  ghost function SumOver(keys: set<string>, f: string -> int): int
    decreases keys
  {
    if keys == {} then 0
    else
      var k :| k in keys;
      f(k) + SumOver(keys - {k}, f)
  }

  /** Any key can be taken out first. */
  lemma {:induction false} SumOverRemove(keys: set<string>, f: string -> int, k: string)
    requires k in keys
    ensures SumOver(keys, f) == f(k) + SumOver(keys - {k}, f)
    decreases keys
  {
    var j :| j in keys && SumOver(keys, f) == f(j) + SumOver(keys - {j}, f);
    if j != k {
      SumOverRemove(keys - {j}, f, k);
      SumOverRemove(keys - {k}, f, j);
      assert keys - {j} - {k} == keys - {k} - {j};
    }
  }

  /** Adding a fresh key adds its term. */
  lemma SumOverInsert(keys: set<string>, f: string -> int, k: string)
    requires k !in keys
    ensures SumOver(keys + {k}, f) == SumOver(keys, f) + f(k)
  {
    SumOverRemove(keys + {k}, f, k);
    assert keys + {k} - {k} == keys;
  }

  /** The sum only depends on the terms of the keys summed over. */
  lemma {:induction false} SumOverCongruent(keys: set<string>, f: string -> int, g: string -> int)
    requires forall k :: k in keys ==> f(k) == g(k)
    ensures SumOver(keys, f) == SumOver(keys, g)
    decreases keys
  {
    if keys != {} {
      var k :| k in keys;
      SumOverRemove(keys, f, k);
      SumOverRemove(keys, g, k);
      SumOverCongruent(keys - {k}, f, g);
    }
  }

  /** The sum of termwise sums is the sum of the two sums. */
  lemma {:induction false} SumOverAdd(keys: set<string>, f: string -> int, g: string -> int, h: string -> int)
    requires forall k :: k in keys ==> h(k) == f(k) + g(k)
    ensures SumOver(keys, h) == SumOver(keys, f) + SumOver(keys, g)
    decreases keys
  {
    if keys != {} {
      var k :| k in keys;
      SumOverRemove(keys, f, k);
      SumOverRemove(keys, g, k);
      SumOverRemove(keys, h, k);
      SumOverAdd(keys - {k}, f, g, h);
    }
  }

  /** A sum of non-negative terms is non-negative. */
  lemma {:induction false} SumOverNonnegative(keys: set<string>, f: string -> int)
    requires forall k :: k in keys ==> 0 <= f(k)
    ensures 0 <= SumOver(keys, f)
    decreases keys
  {
    if keys != {} {
      var k :| k in keys;
      SumOverRemove(keys, f, k);
      SumOverNonnegative(keys - {k}, f);
    }
  }
}
