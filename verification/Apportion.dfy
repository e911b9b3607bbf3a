/**
 Dividing an amount by random proportions: each share is rounded by itself, and the
 first one then takes up what rounding has gained or lost. The shares are a parameter,
 related to the proportions by rounding to a nearest whole number. Operations that leave
 the 64-bit numbers fail, as they do when overflow checks are on.
 */
module Apportion {
  import opened Bytes
  import opened Sums

  const I64_LIMIT := 0x8000_0000_0000_0000

  // ---- repairing the rounding ----

  /** `x as i64`. */
  function AsI64(x: u64): int {
    if x < I64_LIMIT then x else x - U64_MOD
  }

  /** The sum of the shares is off by a number that can be written as an `i64`. */
  predicate NearlyAdd(shares: seq<nat>, alpha: nat) {
    -I64_LIMIT <= alpha - Sum(shares) < I64_LIMIT
  }

  /** The sum fits, and lies on the same side of 2^63 as the amount: both are turned into signed numbers. */
  predicate SameSide(sum: nat, alpha: nat) {
    sum < U64_MOD && (alpha < I64_LIMIT <==> sum < I64_LIMIT)
  }

  /** When the shares can be corrected: the first one must also be large enough for what is taken off it. */
  predicate Repairable(shares: seq<nat>, alpha: nat)
    requires shares != []
  {
    SameSide(Sum(shares), alpha) && Sum(shares) <= shares[0] + alpha
  }

  /** The amount is more than n / 2 away from 2^63 and from 2^64, so that rounding cannot cross them. */
  predicate FarFromLimits(alpha: nat, n: nat) {
    2 * alpha + n < U64_MOD || (U64_MOD + n <= 2 * alpha && 2 * alpha + n < 2 * U64_MOD)
  }

  /** What has to be added to the first share, off by 2^64 when only one of amount and sum is below 2^63. */
  function Correction(alpha: nat, sum: nat): int {
    alpha - sum
    + if alpha < 0x8000_0000_0000_0000 <= sum then 0x1_0000_0000_0000_0000
      else if sum < 0x8000_0000_0000_0000 <= alpha then -0x1_0000_0000_0000_0000
      else 0
  }

  /** The sum, the correction as a signed number, and the corrected share all fit 64 bits. */
  predicate CorrectionFits(alpha: nat, sum: nat, first: nat) {
    && sum < 0x1_0000_0000_0000_0000
    && -0x8000_0000_0000_0000 <= Correction(alpha, sum) < 0x8000_0000_0000_0000
    && 0 <= first + Correction(alpha, sum) < 0x1_0000_0000_0000_0000
  }

  /** The correction of the first amount; `None` when a number overflows on the way. */
  method Repair(alpha: u64, shares: seq<u64>) returns (r: Option<seq<u64>>)
    requires shares != []
    ensures r.Some? ==> |r.value| == |shares| && r.value[1..] == shares[1..]
    ensures r.Some? && Sum(r.value) == alpha <==> Repairable(shares, alpha)
    ensures r.Some? && NearlyAdd(shares, alpha) ==> Sum(r.value) == alpha
    ensures r.Some? <==> CorrectionFits(alpha, Sum(shares), shares[0])
    ensures r.Some? ==> r.value[0] == shares[0] + Correction(alpha, Sum(shares))
  {
    var amounts := shares;
    var total := SumOf(amounts);
    if total >= U64_MOD {
      return None;
    }
    PartOfSum(shares, 0, |shares|);
    if total != alpha {
      var difference := AsI64(alpha) - AsI64(total);
      if !(-I64_LIMIT <= difference < I64_LIMIT) {
        return None;
      }
      if difference > 0 {
        if amounts[0] + difference >= U64_MOD {
          return None;
        }
        SumUpdate(shares, shares[0] + difference, |shares|);
        amounts := amounts[0 := amounts[0] + difference];
      } else if difference < 0 {
        if amounts[0] < -difference {
          return None;
        }
        SumUpdate(shares, shares[0] + difference, |shares|);
        amounts := amounts[0 := amounts[0] - (-difference)];
      }
    }
    return Some(amounts);
  }

  method SumOf(s: seq<u64>) returns (total: nat)
    ensures total == Sum(s)
  {
    total := 0;
    for i := 0 to |s|
      invariant total == SumTo(s, i)
    {
      total := total + s[i];
    }
  }

  // ---- the two ways to divide ----

  /** `get_dirichlet_distributed_amount`. */
  method DirichletAmount(alpha: u64, n: nat, shares: seq<u64>) returns (r: Option<seq<u64>>)
    requires |shares| == n
    ensures n == 0 ==> r == Some([])
    ensures n > 0 && r.Some? ==> |r.value| == n && r.value[1..] == shares[1..]
    ensures n > 0 ==> (r.Some? && Sum(r.value) == alpha <==> Repairable(shares, alpha))
    ensures n > 0 ==> (r.Some? <==> CorrectionFits(alpha, Sum(shares), shares[0]))
    ensures n > 0 && r.Some? ==> r.value[0] == shares[0] + Correction(alpha, Sum(shares))
    ensures n > 0 && r.Some? && NearlyAdd(shares, alpha) ==> Sum(r.value) == alpha
  {
    if n == 0 {
      return Some([]);
    }
    r := Repair(alpha, shares);
  }

  /** `get_dirichlet_distributed_with_min_amount`; the shares are those of what is left above the minimum. */
  method DirichletWithMinAmount(alpha: u64, n: nat, min: u64, shares: seq<u64>) returns (r: Option<seq<u64>>)
    requires |shares| == n
    ensures n == 0 ==> r == Some([])
    ensures n == 1 ==> r == Some([alpha])
    ensures n >= 2 && n * min < U64_MOD && alpha < n * min ==> r == Some(seq(n, _ => min))
    ensures n >= 2 && n * min >= U64_MOD ==> r == None
    ensures n >= 2 && n * min <= alpha ==>
      var raised := seq(n, i requires 0 <= i < n => shares[i] + min);
      && (r.Some? ==> |r.value| == n && r.value[1..] == raised[1..])
      && (r.Some? && Sum(r.value) == alpha <==> Repairable(raised, alpha))
      && (r.Some? <==> CorrectionFits(alpha, Sum(raised), raised[0]))
      && (r.Some? ==> r.value[0] == raised[0] + Correction(alpha, Sum(raised)))
      && (r.Some? && NearlyAdd(shares, alpha - n * min) ==> Sum(r.value) == alpha)
  {
    if n == 0 {
      return Some([]);
    }
    if n == 1 {
      return Some([alpha]);
    }
    var required := n * min;
    if required >= U64_MOD {
      return None;
    }
    if alpha < required {
      return Some(seq(n, _ => min));
    }
    var amounts: seq<u64> := [];
    ghost var raised := seq(n, i requires 0 <= i < n => shares[i] + min);
    for i := 0 to n
      invariant |amounts| == i && forall j :: 0 <= j < i ==> amounts[j] == shares[j] + min
    {
      if shares[i] + min >= U64_MOD {
        PartOfSum(raised, i, n);
        return None;
      }
      amounts := amounts + [shares[i] + min];
    }
    SumRaised(shares, amounts, min, n);
    assert amounts == raised;
    r := Repair(alpha, amounts);
  }

  // ---- rounding ----

  /** Each share is a whole number nearest to its proportion of the amount. */
  ghost predicate Rounded(shares: seq<nat>, proportions: seq<real>, amount: nat) {
    && |shares| == |proportions|
    && forall i :: 0 <= i < |shares| ==>
         -0.5 <= shares[i] as real - proportions[i] * amount as real <= 0.5
  }

  function RealSumTo(s: seq<real>, n: nat): real
    requires n <= |s|
  {
    if n == 0 then 0.0 else RealSumTo(s, n - 1) + s[n - 1]
  }

  lemma {:induction false} RoundingIsBounded(shares: seq<nat>, proportions: seq<real>, amount: nat, n: nat)
    requires Rounded(shares, proportions, amount) && n <= |shares|
    ensures var error := SumTo(shares, n) as real - RealSumTo(proportions, n) * amount as real;
      -0.5 * n as real <= error <= 0.5 * n as real
  {
    var a := amount as real;
    if n == 0 {
      assert 0.0 * a == 0.0;
    } else {
      RoundingIsBounded(shares, proportions, amount, n - 1);
      ErrorStep(SumTo(shares, n - 1) as real, shares[n - 1] as real, RealSumTo(proportions, n - 1), proportions[n - 1],
                a, (n - 1) as real);
    }
  }

  lemma ErrorStep(sum: real, share: real, before: real, p: real, a: real, m: real)
    requires -0.5 * m <= sum - before * a <= 0.5 * m && -0.5 <= share - p * a <= 0.5
    ensures -0.5 * (m + 1.0) <= sum + share - (before + p) * a <= 0.5 * (m + 1.0)
  {
    assert (before + p) * a == before * a + p * a;
  }

  /** Over proportions that make up the whole, n roundings gain or lose at most n / 2. */
  lemma SharesNearlyAddUp(shares: seq<nat>, proportions: seq<real>, amount: nat)
    requires Rounded(shares, proportions, amount) && RealSumTo(proportions, |proportions|) == 1.0
    ensures -|shares| <= 2 * (Sum(shares) - amount) <= |shares|
  {
    RoundingIsBounded(shares, proportions, amount, |shares|);
    assert 1.0 * amount as real == amount as real;
    var error := Sum(shares) - amount;
    assert error as real == Sum(shares) as real - amount as real;
    assert (2 * error) as real == 2.0 * error as real;
  }

  /** What a Dirichlet sample is: positive proportions that make up the whole. */
  ghost predicate Sample(proportions: seq<real>) {
    (forall i :: 0 <= i < |proportions| ==> proportions[i] > 0.0) && RealSumTo(proportions, |proportions|) == 1.0
  }

  /** The first of the shares of `rest`, raised by the minimum like all, is large enough for what is taken off it. */
  predicate FirstBears(shares: seq<nat>, min: nat, rest: nat)
    requires shares != []
  {
    Sum(shares) <= shares[0] + min + rest
  }

  /**
   The division with a minimum: it works out exactly when the rounded sum has not crossed
   2^63 or 2^64 and the first share bears the correction. Both are so for every sample of
   at most 2 min + 3 parts and an amount far from the limits. Then the parts add up, all but
   the first reach the minimum, and the first falls short of it by at most half the number
   of parts.
   */
  method DivideWithMin(alpha: u64, n: nat, min: u64, shares: seq<u64>, ghost proportions: seq<real>)
    returns (r: Option<seq<u64>>)
    requires n >= 2 && alpha >= n * min
    requires |shares| == n && Rounded(shares, proportions, alpha - n * min)
    requires RealSumTo(proportions, n) == 1.0
    ensures r.Some? && Sum(r.value) == alpha <==>
      SameSide(Sum(shares) + n * min, alpha) && FirstBears(shares, min, alpha - n * min)
    ensures 2 * min >= n || (Sample(proportions) && n <= 2 * min + 3) ==> FirstBears(shares, min, alpha - n * min)
    ensures FarFromLimits(alpha, n) ==> SameSide(Sum(shares) + n * min, alpha)
    ensures r.Some? && Sum(r.value) == alpha ==>
      |r.value| == n && (forall i :: 1 <= i < n ==> r.value[i] >= min) && 2 * r.value[0] >= 2 * min - n
  {
    ghost var required := n * min;
    ghost var raised := seq(n, i requires 0 <= i < n => shares[i] + min);
    SumRaised(shares, raised, min, n);
    SharesNearlyAddUp(shares, proportions, alpha - n * min);
    DivisionWorks(alpha, n, min, required, shares, raised);
    if Sample(proportions) && n <= 2 * min + 3 {
      FewSharesSuffice(shares, proportions, min, alpha - n * min);
    }
    r := DirichletWithMinAmount(alpha, n, min, shares);
    if r.Some? && |r.value| == n {
      FirstPart(r.value, raised, alpha);
    }
  }

  lemma DivisionWorks(alpha: u64, n: nat, min: u64, required: nat, shares: seq<u64>, raised: seq<nat>)
    requires n == |shares| == |raised| >= 2 && forall i :: 0 <= i < n ==> raised[i] == shares[i] + min
    requires alpha >= required
    requires Sum(raised) == Sum(shares) + required
    requires -(n as int) <= 2 * (Sum(shares) - (alpha - required)) <= n
    ensures Repairable(raised, alpha) <==>
      SameSide(Sum(shares) + required, alpha) && FirstBears(shares, min, alpha - required)
    ensures 2 * min >= n ==> FirstBears(shares, min, alpha - required)
    ensures FarFromLimits(alpha, n) ==> SameSide(Sum(shares) + required, alpha)
    ensures 2 * (raised[0] + alpha - Sum(raised)) >= 2 * min - n
  {
  }

  lemma FirstPart(r: seq<u64>, raised: seq<nat>, alpha: nat)
    requires |r| == |raised| > 0 && r[1..] == raised[1..]
    ensures Sum(r) == alpha ==> r[0] == raised[0] + alpha - Sum(raised)
    ensures forall i :: 1 <= i < |r| ==> r[i] == raised[i]
  {
    assert forall i :: 1 <= i < |r| ==> r[i] == r[1..][i - 1] == raised[1..][i - 1];
    assert r == raised[0 := r[0]];
    SumUpdate(raised, r[0], |r|);
  }

  // ---- when the first share bears the correction ----

  /** Shares of a sample, far from the limits: they can be corrected exactly when the first is large enough. */
  lemma PlainDivisionWorks(shares: seq<nat>, proportions: seq<real>, alpha: nat)
    requires shares != []
    ensures Sample(proportions) && Rounded(shares, proportions, alpha) && FarFromLimits(alpha, |shares|) ==>
      && (Repairable(shares, alpha) <==> Sum(shares) <= shares[0] + alpha)
      && (|shares| <= 3 ==> Repairable(shares, alpha))
  {
    if Sample(proportions) && Rounded(shares, proportions, alpha) {
      SharesNearlyAddUp(shares, proportions, alpha);
      if |shares| <= 3 {
        FewSharesSuffice(shares, proportions, 0, alpha);
      }
    }
  }

  /** The shares but the first gain at most one half each. */
  lemma {:induction false} OthersGain(shares: seq<nat>, proportions: seq<real>, amount: nat, n: nat)
    requires Rounded(shares, proportions, amount) && 1 <= n <= |shares|
    ensures (SumTo(shares, n) - shares[0]) as real
         <= (RealSumTo(proportions, n) - proportions[0]) * amount as real + 0.5 * (n - 1) as real
  {
    var a := amount as real;
    if n == 1 {
      assert SumTo(shares, 1) == SumTo(shares, 0) + shares[0];
      assert RealSumTo(proportions, 1) == RealSumTo(proportions, 0) + proportions[0];
      assert 0.0 * a == 0.0;
    } else {
      OthersGain(shares, proportions, amount, n - 1);
      GainStep((SumTo(shares, n - 1) - shares[0]) as real, shares[n - 1] as real,
               RealSumTo(proportions, n - 1) - proportions[0], proportions[n - 1], a, (n - 2) as real);
    }
  }

  lemma GainStep(sum: real, share: real, before: real, p: real, a: real, m: real)
    requires sum <= before * a + 0.5 * m && share - p * a <= 0.5
    ensures sum + share <= (before + p) * a + 0.5 * (m + 1.0)
  {
    assert (before + p) * a == before * a + p * a;
  }

  lemma {:induction false} NothingToShare(shares: seq<nat>, proportions: seq<real>, n: nat)
    requires Rounded(shares, proportions, 0) && n <= |shares|
    ensures SumTo(shares, n) == 0
  {
    if n == 0 {
    } else {
      NothingToShare(shares, proportions, n - 1);
      assert proportions[n - 1] * 0.0 == 0.0;
    }
  }

  lemma PositiveProduct(p: real, a: real)
    requires p > 0.0 && a > 0.0
    ensures (1.0 - p) * a < a
  {
    assert (1.0 - p) * a == a - p * a;
  }

  /** Up to 2 min + 3 shares: the others gain at most min + 1 in all, and the first proportion is positive. */
  lemma FewSharesSuffice(shares: seq<nat>, proportions: seq<real>, min: nat, rest: nat)
    requires 1 <= |shares| <= 2 * min + 3 && Sample(proportions) && Rounded(shares, proportions, rest)
    ensures FirstBears(shares, min, rest)
  {
    if rest == 0 {
      NothingToShare(shares, proportions, |shares|);
    } else {
      OthersGain(shares, proportions, rest, |shares|);
      PositiveProduct(proportions[0], rest as real);
      assert (Sum(shares) - shares[0]) as real < rest as real + min as real + 1.0;
    }
  }

  /** A proportion of the first share that rounds to nothing, and equal ones for the others that all round up. */
  function Uneven(n: nat, rest: nat): seq<real>
    requires n >= 2 && rest > 0
  {
    var first := 0.25 / rest as real;
    seq(n, i => if i == 0 then first else (1.0 - first) / (n - 1) as real)
  }

  function AllButFirst(n: nat): seq<nat> {
    seq(n, i => if i == 0 then 0 else 1)
  }

  /** From 2 min + 4 shares on there are samples for which more is taken off the first than it has. */
  lemma ManySharesMayFail(n: nat, min: nat)
    requires n >= 2 * min + 4
    ensures var rest := n - min - 2;
      && Sample(Uneven(n, rest)) && Rounded(AllButFirst(n), Uneven(n, rest), rest)
      && !FirstBears(AllButFirst(n), min, rest)
  {
    SumsOfUneven(n, n - min - 2, n);
    UnevenIsRounded(n, n - min - 2);
  }

  lemma UnevenIsRounded(n: nat, rest: nat)
    requires 2 <= rest < n - 1 <= 2 * rest - 1
    requires RealSumTo(Uneven(n, rest), n) == Uneven(n, rest)[0] + (n - 1) as real * Uneven(n, rest)[1]
    ensures Sample(Uneven(n, rest)) && Rounded(AllButFirst(n), Uneven(n, rest), rest)
  {
    var first, other := Uneven(n, rest)[0], Uneven(n, rest)[1];
    UnevenParts((n - 1) as real, rest as real, first, other);
    forall i | 0 <= i < n
      ensures -0.5 <= AllButFirst(n)[i] as real - Uneven(n, rest)[i] * rest as real <= 0.5
    {
      assert Uneven(n, rest)[i] == if i == 0 then first else other;
    }
  }

  lemma UnevenParts(m: real, r: real, first: real, other: real)
    requires 2.0 <= r < m <= 2.0 * r - 1.0
    requires first == 0.25 / r && other == (1.0 - first) / m
    ensures 0.0 < first && 0.0 < other && first + m * other == 1.0
    ensures first * r == 0.25 && 0.5 <= other * r <= 1.0
  {
    assert first * r == 0.25;
    assert other * m == 1.0 - first;
    assert (other * r) * m == (other * m) * r == r - 0.25;
    ShareOfAll(other * r, m, r);
  }

  lemma ShareOfAll(x: real, m: real, r: real)
    requires x * m == r - 0.25 && 2.0 <= r < m <= 2.0 * r - 1.0
    ensures 0.5 <= x <= 1.0
  {
  }

  lemma {:induction false} SumsOfUneven(n: nat, rest: nat, k: nat)
    requires n >= 2 && rest > 0 && 1 <= k <= n
    ensures SumTo(AllButFirst(n), k) == k - 1
    ensures RealSumTo(Uneven(n, rest), k) == Uneven(n, rest)[0] + (k - 1) as real * Uneven(n, rest)[1]
  {
    var other := Uneven(n, rest)[1];
    if k == 1 {
      assert SumTo(AllButFirst(n), 0) == 0 && RealSumTo(Uneven(n, rest), 0) == 0.0;
    } else {
      SumsOfUneven(n, rest, k - 1);
      assert Uneven(n, rest)[k - 1] == other;
      assert (k - 1) as real * other == (k - 2) as real * other + other;
    }
  }

  /** Whatever the sample and the amount above the minimum, the first of `n` shares bears the correction. */
  ghost predicate FirstAlwaysBears(n: nat, min: nat)
    requires n > 0
  {
    forall shares: seq<nat>, proportions, rest: nat ::
      |shares| == n && Sample(proportions) && Rounded(shares, proportions, rest) ==> FirstBears(shares, min, rest)
  }

  /** That is so exactly for up to 2 min + 3 parts; without a minimum, for up to three. */
  lemma FirstBearsUpTo(n: nat, min: nat)
    requires n > 0
    ensures FirstAlwaysBears(n, min) <==> n <= 2 * min + 3
  {
    if n <= 2 * min + 3 {
      forall shares: seq<nat>, proportions, rest: nat
        | |shares| == n && Sample(proportions) && Rounded(shares, proportions, rest)
        ensures FirstBears(shares, min, rest)
      {
        FewSharesSuffice(shares, proportions, min, rest);
      }
    } else {
      ManySharesMayFail(n, min);
    }
  }

  /** Without a minimum, four parts of 10: the first share is 0, and 1 would have to be taken off it. */
  lemma FirstShareTooSmall()
    ensures var proportions, shares := [0.02, 0.26, 0.26, 0.46], [0, 3, 3, 5];
      && Sample(proportions)
      && Rounded(shares, proportions, 10)
      && Sum(shares) == shares[0] + 10 + 1
  {
    var proportions, shares := [0.02, 0.26, 0.26, 0.46], [0, 3, 3, 5];
    assert RealSumTo(proportions, 2) == 0.28 && RealSumTo(proportions, 3) == 0.54;
    assert SumTo(shares, 2) == 3 && SumTo(shares, 3) == 6;
  }

  /** Six parts of 14, each at least 1: the first is raised to 1, and 2 would have to be taken off it. */
  lemma FirstShareTooSmallWithMin()
    ensures var proportions, shares := [0.02, 0.196, 0.196, 0.196, 0.196, 0.196], [0, 2, 2, 2, 2, 2];
      && Sample(proportions)
      && Rounded(shares, proportions, 14 - 6 * 1)
      && Sum(shares) + 6 * 1 == 14 + 2
      && !FirstBears(shares, 1, 14 - 6 * 1)
  {
    var proportions, shares := [0.02, 0.196, 0.196, 0.196, 0.196, 0.196], [0, 2, 2, 2, 2, 2];
    assert RealSumTo(proportions, 2) == 0.216 && RealSumTo(proportions, 3) == 0.412;
    assert RealSumTo(proportions, 4) == 0.608;
    assert SumTo(shares, 2) == 2 && SumTo(shares, 3) == 4 && SumTo(shares, 4) == 6;
  }
}
