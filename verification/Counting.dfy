/** Counting steps of a run, and bounds that are products. */
module Counting {
  /** n * p. */
  function Times(n: nat, p: nat): nat { if n == 0 then 0 else Times(n - 1, p) + p }

  lemma {:induction false} TimesIsProduct(n: nat, p: nat)
    ensures Times(n, p) == n * p
  {
    if n > 0 { TimesIsProduct(n - 1, p); }
  }

  lemma {:induction false} TimesGrows(m: nat, n: nat, p: nat)
    requires m <= n
    ensures Times(m, p) <= Times(n, p)
    ensures m < n ==> Times(m, p) + p <= Times(n, p)
  {
    if m < n { TimesGrows(m, n - 1, p); }
  }

  lemma {:induction false} TimesAtLeast(n: nat, p: nat)
    requires p > 0
    ensures Times(n, p) >= n
  {
    if n > 0 { TimesAtLeast(n - 1, p); }
  }

  /** How many of the numbers below n satisfy f. */
  function Count(f: nat -> bool, n: nat): nat {
    if n == 0 then 0 else Count(f, n - 1) + if f(n - 1) then 1 else 0
  }

  lemma {:induction false} CountGrows(f: nat -> bool, m: nat, n: nat)
    requires m <= n
    ensures Count(f, m) <= Count(f, n)
    ensures (forall k :: m <= k < n ==> !f(k)) ==> Count(f, m) == Count(f, n)
  {
    if m < n { CountGrows(f, m, n - 1); }
  }

  /** If the run goes on after step k, the rank falls in it, or the step is costly and adds less than
      `cost` to it. */
  predicate Pays(rank: nat -> int, open: nat -> bool, costly: nat -> bool, cost: nat, k: nat) {
    open(k + 1) ==> open(k) && rank(k + 1) < rank(k) + if costly(k) then cost else 0
  }

  lemma {:induction false} StepsArePaidFor(rank: nat -> int, open: nat -> bool, costly: nat -> bool,
                                           cost: nat, n: nat)
    requires open(n) && forall k: nat :: k < n ==> Pays(rank, open, costly, cost, k)
    ensures rank(n) <= rank(0) - n + Times(Count(costly, n), cost)
  {
    if n > 0 {
      assert Pays(rank, open, costly, cost, n - 1);
      StepsArePaidFor(rank, open, costly, cost, n - 1);
    }
  }

  lemma NeverCounted(f: nat -> bool, n: nat)
    requires forall k: nat :: k < n ==> !f(k)
    ensures Count(f, n) == 0
  {
    CountGrows(f, 0, n);
  }
}
