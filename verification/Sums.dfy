/** Finite sums over sets, with the update laws the ledger proofs use. */
module Sums {

  ghost function Pick<T>(keys: set<T>): (k: T)
    requires keys != {}
    ensures k in keys
  {
    var x :| x in keys;
    x
  }

  /** The sum of `f` over `keys`. The order of summation is irrelevant, see `SumRemove`. */
  ghost function SumOver<T>(keys: set<T>, f: T -> int): int
  {
    if keys == {} then 0 else f(Pick(keys)) + SumOver(keys - {Pick(keys)}, f)
  }

  lemma {:induction false} SumRemove<T>(keys: set<T>, k: T, f: T -> int)
    requires k in keys
    ensures SumOver(keys, f) == f(k) + SumOver(keys - {k}, f)
    decreases keys
  {
    var p := Pick(keys);
    if p != k {
      SumRemove(keys - {p}, k, f);
      SumRemove(keys - {k}, p, f);
      assert keys - {p} - {k} == keys - {k} - {p};
    }
  }

  lemma {:induction false} SumAgree<T>(keys: set<T>, f: T -> int, g: T -> int)
    requires forall k :: k in keys ==> f(k) == g(k)
    ensures SumOver(keys, f) == SumOver(keys, g)
    decreases keys
  {
    if keys != {} {
      SumAgree(keys - {Pick(keys)}, f, g);
    }
  }

  /** Changing one summand changes the sum by the difference. */
  lemma SumChange<T>(keys: set<T>, k: T, f: T -> int, g: T -> int)
    requires k in keys
    requires forall x :: x in keys && x != k ==> f(x) == g(x)
    ensures SumOver(keys, g) == SumOver(keys, f) - f(k) + g(k)
  {
    SumRemove(keys, k, f);
    SumRemove(keys, k, g);
    SumAgree(keys - {k}, f, g);
  }

  /** Adding a key adds its summand. */
  lemma SumInsert<T>(keys: set<T>, k: T, f: T -> int, g: T -> int)
    requires k !in keys
    requires forall x :: x in keys ==> f(x) == g(x)
    ensures SumOver(keys + {k}, g) == SumOver(keys, f) + g(k)
  {
    SumRemove(keys + {k}, k, g);
    assert keys + {k} - {k} == keys;
    SumAgree(keys, f, g);
  }

  /** Dropping a key drops its summand. */
  lemma SumDelete<T>(keys: set<T>, k: T, f: T -> int, g: T -> int)
    requires k in keys
    requires forall x :: x in keys && x != k ==> f(x) == g(x)
    ensures SumOver(keys - {k}, g) == SumOver(keys, f) - f(k)
  {
    SumRemove(keys, k, f);
    SumAgree(keys - {k}, f, g);
  }

  lemma {:induction false} SumNonNegative<T>(keys: set<T>, f: T -> int)
    requires forall k :: k in keys ==> 0 <= f(k)
    ensures 0 <= SumOver(keys, f)
    ensures forall k :: k in keys ==> f(k) <= SumOver(keys, f)
    decreases keys
  {
    if keys != {} {
      SumNonNegative(keys - {Pick(keys)}, f);
    }
  }

  lemma {:induction false} SumMonotone<T>(keys: set<T>, f: T -> int, g: T -> int)
    requires forall k :: k in keys ==> f(k) <= g(k)
    ensures SumOver(keys, f) <= SumOver(keys, g)
    decreases keys
  {
    if keys != {} {
      SumMonotone(keys - {Pick(keys)}, f, g);
    }
  }

  lemma {:induction false} SumZero<T>(keys: set<T>, f: T -> int)
    requires forall k :: k in keys ==> f(k) == 0
    ensures SumOver(keys, f) == 0
    decreases keys
  {
    if keys != {} {
      SumZero(keys - {Pick(keys)}, f);
    }
  }
}
