/** Sums of sequences of whole numbers. */
module Sums {

  /** The sum of the first `n` numbers. */
  function SumTo(s: seq<nat>, n: nat): nat
    requires n <= |s|
  {
    if n == 0 then 0 else SumTo(s, n - 1) + s[n - 1]
  }

  function Sum(s: seq<nat>): nat {
    SumTo(s, |s|)
  }

  lemma {:induction false} SumUpdate(s: seq<nat>, x: nat, n: nat)
    requires 0 < n <= |s|
    ensures SumTo(s[0 := x], n) == SumTo(s, n) - s[0] + x
  {
    if n == 1 {
      assert SumTo(s, 0) == 0 && SumTo(s[0 := x], 0) == 0;
    } else {
      SumUpdate(s, x, n - 1);
    }
  }

  lemma {:induction false} SumPrefix(a: seq<nat>, b: seq<nat>, n: nat)
    requires n <= |a| && n <= |b| && a[..n] == b[..n]
    ensures SumTo(a, n) == SumTo(b, n)
  {
    if n == 0 {
    } else {
      assert a[..n][n - 1] == a[n - 1] && b[..n][n - 1] == b[n - 1];
      assert a[..n - 1] == a[..n][..n - 1] && b[..n - 1] == b[..n][..n - 1];
      SumPrefix(a, b, n - 1);
    }
  }

  lemma {:induction false} SumWithoutFirst(s: seq<nat>, n: nat)
    requires 0 < n <= |s|
    ensures SumTo(s[1..], n - 1) == SumTo(s, n) - s[0]
  {
    if n == 1 {
    } else {
      SumWithoutFirst(s, n - 1);
    }
  }

  /** Every number is at most the sum. */
  lemma {:induction false} PartOfSum(s: seq<nat>, i: nat, n: nat)
    requires i < n <= |s|
    ensures s[i] <= SumTo(s, n)
  {
    if i == n - 1 {
    } else {
      PartOfSum(s, i, n - 1);
    }
  }

  lemma {:induction false} SumRaised(s: seq<nat>, t: seq<nat>, min: nat, n: nat)
    requires n <= |s| == |t| && forall i :: 0 <= i < |s| ==> t[i] == s[i] + min
    ensures SumTo(t, n) == SumTo(s, n) + n * min
  {
    if n == 0 {
    } else {
      SumRaised(s, t, min, n - 1);
      assert n * min == (n - 1) * min + min;
    }
  }
}
