// Sums over an initial segment of the naturals, used wherever the system adds
// up something per user, per agreement or per payment.
module Sums {

  ghost function SumTo(f: nat -> int, n: nat): int {
    if n == 0 then 0 else SumTo(f, n - 1) + f(n - 1)
  }

  /** Two families that differ at one index have sums that differ by exactly that much. */
  lemma {:induction false} SumDiffersAt(f: nat -> int, g: nat -> int, n: nat, k: nat)
    requires forall i: nat :: i < n && i != k ==> f(i) == g(i)
    ensures SumTo(g, n) == SumTo(f, n) + (if k < n then g(k) - f(k) else 0)
  {
    if n > 0 {
      SumDiffersAt(f, g, n - 1, k);
    }
  }

  /** A sum of non-negative terms is at least any one of them. */
  lemma {:induction false} TermAtMostSum(f: nat -> int, n: nat, k: nat)
    requires forall i: nat :: i < n ==> f(i) >= 0
    ensures SumTo(f, n) >= 0
    ensures k < n ==> f(k) <= SumTo(f, n)
  {
    if n > 0 {
      TermAtMostSum(f, n - 1, k);
    }
  }

  /** Pointwise comparison; the sums agree exactly when every term agrees. */
  lemma {:induction false} SumMonotone(f: nat -> int, g: nat -> int, n: nat)
    requires forall i: nat :: i < n ==> f(i) <= g(i)
    ensures SumTo(f, n) <= SumTo(g, n)
    ensures SumTo(f, n) == SumTo(g, n) <==> forall i: nat :: i < n ==> f(i) == g(i)
  {
    if n > 0 {
      SumMonotone(f, g, n - 1);
    }
  }
}
