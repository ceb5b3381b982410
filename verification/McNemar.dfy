/** The exact two-sided binomial tail behind the paired McNemar test. */
module McNemar {
  import opened Rounding

  function Choose(n: nat, k: nat): nat {
    if k == 0 then 1
    else if n == 0 then 0
    else Choose(n - 1, k - 1) + Choose(n - 1, k)
  }

  function Pow(x: real, k: nat): real { if k == 0 then 1.0 else x * Pow(x, k - 1) }

  function TwoTo(k: nat): nat { if k == 0 then 1 else 2 * TwoTo(k - 1) }

  function Min(x: real, y: real): real { if y < x then y else x }

  /** The probability of exactly `x` successes in `n` trials. */
  function Pmf(n: nat, x: nat, p: real): real
    requires x <= n
  {
    Choose(n, x) as real * Pow(p, x) * Pow(1.0 - p, n - x)
  }

  /** Total probability of the outcomes below `upTo` that are no likelier than `limit`. */
  function TailMass(n: nat, p: real, limit: real, upTo: nat): real
    requires upTo <= n + 1
  {
    if upTo == 0 then 0.0
    else TailMass(n, p, limit, upTo - 1) + (if Pmf(n, upTo - 1, p) <= limit then Pmf(n, upTo - 1, p) else 0.0)
  }

  const SLACK := 0.000000000001

  /** `_binom_two_sided_p` before its final rounding, with the comparison slack as a parameter. */
  function BinomTwoSided(k: nat, n: nat, p: real, slack: real): real
    requires k <= n
  {
    if n == 0 then 1.0 else Min(1.0, TailMass(n, p, Pmf(n, k, p) + slack, n + 1))
  }

  // ---- binomial coefficients: symmetric and unimodal -------------------------------------------

  lemma {:induction false} ChooseZero(n: nat, k: nat)
    requires k > n
    ensures Choose(n, k) == 0
  {
    if n > 0 {
      ChooseZero(n - 1, k - 1);
      ChooseZero(n - 1, k);
    }
  }

  lemma {:induction false} ChooseAll(n: nat)
    ensures Choose(n, n) == 1
  {
    if n > 0 {
      ChooseAll(n - 1);
      ChooseZero(n - 1, n);
    }
  }

  lemma {:induction false} ChooseSymmetric(n: nat, k: nat)
    requires k <= n
    ensures Choose(n, k) == Choose(n, n - k)
  {
    if k == 0 || k == n {
      ChooseAll(n);
    } else {
      ChooseSymmetric(n - 1, k - 1);
      ChooseSymmetric(n - 1, k);
    }
  }

  lemma {:induction false} ChooseOne(n: nat)
    ensures Choose(n, 1) == n
  {
    if n > 0 {
      ChooseOne(n - 1);
    }
  }

  /** Coefficients climb strictly up to the middle. */
  lemma {:induction false} ChooseClimbs(n: nat, k: nat)
    requires 2 * k + 1 <= n
    ensures 2 * k + 1 < n ==> Choose(n, k) < Choose(n, k + 1)
    ensures 2 * k + 1 == n ==> Choose(n, k) == Choose(n, k + 1)
    decreases n
  {
    if 2 * k + 1 == n {
      ChooseSymmetric(n, k);
    } else if k == 0 {
      ChooseOne(n);
    } else {
      ChooseClimbs(n - 1, k - 1);
      ChooseClimbs(n - 1, k);
    }
  }

  lemma {:induction false} ChooseBelow(n: nat, x: nat, k: nat)
    requires x <= k && 2 * k <= n
    ensures Choose(n, x) <= Choose(n, k)
    ensures x < k ==> Choose(n, x) < Choose(n, k)
    decreases k - x
  {
    if x < k {
      ChooseClimbs(n, x);
      ChooseBelow(n, x + 1, k);
    }
  }

  /** Exactly the two outer tails are no likelier than outcome `k`. */
  lemma ChooseTails(n: nat, x: nat, k: nat)
    requires x <= n && 2 * k <= n
    ensures Choose(n, x) <= Choose(n, k) <==> (x <= k || n - k <= x)
  {
    if 2 * x <= n {
      if x <= k { ChooseBelow(n, x, k); } else { ChooseBelow(n, k, x); }
    } else {
      ChooseSymmetric(n, x);
      if n - x <= k { ChooseBelow(n, n - x, k); } else { ChooseBelow(n, k, n - x); }
    }
  }

  // ---- the tail for p = 1/2 --------------------------------------------------------------------

  lemma {:induction false} HalfPowers(a: nat, b: nat)
    ensures Pow(0.5, a) * Pow(0.5, b) == Pow(0.5, a + b)
  {
    if a > 0 {
      HalfPowers(a - 1, b);
    }
  }

  lemma Regroup(c: real, a: real, b: real, p: real)
    requires a * b == p
    ensures c * a * b == c * p
  {
    assert c * a * b == c * (a * b);
  }

  /** `c` equal shares of size `h`. */
  function Shares(c: nat, h: real): real { if c == 0 then 0.0 else Shares(c - 1, h) + h }

  lemma {:induction false} SharesProduct(c: nat, h: real)
    ensures c as real * h == Shares(c, h)
  {
    if c > 0 {
      SharesProduct(c - 1, h);
      assert ((c - 1) as real + 1.0) * h == (c - 1) as real * h + h;
    }
  }

  lemma {:induction false} SharesAdd(a: nat, b: nat, h: real)
    ensures Shares(a + b, h) == Shares(a, h) + Shares(b, h)
  {
    if b > 0 {
      SharesAdd(a, b - 1, h);
    }
  }

  lemma {:induction false} SharesOrder(a: nat, b: nat, h: real, slack: real)
    requires 0.0 <= slack < h
    ensures a <= b <==> Shares(a, h) <= Shares(b, h) + slack
    ensures Shares(a, h) >= 0.0 && (a > 0 ==> Shares(a, h) > 0.0)
    decreases a + b
  {
    if a > 0 && b > 0 {
      SharesOrder(a - 1, b - 1, h, slack);
    } else if b > 0 {
      SharesOrder(a, b - 1, h, slack);
    } else if a > 0 {
      SharesOrder(a - 1, b, h, slack);
    }
  }

  lemma {:induction false} SharesHalve(c: nat, h: real)
    ensures Shares(2 * c, h / 2.0) == Shares(c, h)
  {
    if c > 0 {
      SharesHalve(c - 1, h);
      assert Shares(2 * c - 1, h / 2.0) == Shares(2 * (c - 1), h / 2.0) + h / 2.0;
    }
  }

  lemma {:induction false} HalfPowerInverse(n: nat)
    ensures Pow(0.5, n) > 0.0 && Shares(TwoTo(n), Pow(0.5, n)) == 1.0
  {
    if n > 0 {
      HalfPowerInverse(n - 1);
      SharesHalve(TwoTo(n - 1), Pow(0.5, n - 1));
    }
  }

  lemma FairPmf(n: nat, x: nat)
    requires x <= n
    ensures Pmf(n, x, 0.5) == Shares(Choose(n, x), Pow(0.5, n))
  {
    HalfPowers(x, n - x);
    Regroup(Choose(n, x) as real, Pow(0.5, x), Pow(0.5, n - x), Pow(0.5, n));
    SharesProduct(Choose(n, x), Pow(0.5, n));
  }

  /** C(n,0) + ... + C(n,upTo-1). */
  function ChooseSum(n: nat, upTo: nat): nat {
    if upTo == 0 then 0 else ChooseSum(n, upTo - 1) + Choose(n, upTo - 1)
  }

  lemma {:induction false} ChooseSumRow(n: nat, k: nat)
    requires n > 0
    ensures ChooseSum(n, k + 1) == ChooseSum(n - 1, k) + ChooseSum(n - 1, k + 1)
  {
    if k > 0 {
      ChooseSumRow(n, k - 1);
    }
  }

  lemma {:induction false} ChooseSumAll(n: nat)
    ensures ChooseSum(n, n + 1) == TwoTo(n)
  {
    if n > 0 {
      ChooseSumAll(n - 1);
      ChooseSumRow(n, n);
      ChooseZero(n - 1, n);
    }
  }

  /** The upper tail mirrors the lower one. */
  lemma {:induction false} ChooseSumMirror(n: nat, j: nat)
    requires j <= n + 1
    ensures ChooseSum(n, n + 1) == ChooseSum(n, n + 1 - j) + ChooseSum(n, j)
  {
    if j > 0 {
      ChooseSumMirror(n, j - 1);
      ChooseSymmetric(n, j - 1);
    }
  }

  /** The coefficients counted by `TailMass` when outcome `k` sets the limit. */
  function OuterSum(n: nat, k: nat, upTo: nat): nat {
    if upTo == 0 then 0
    else OuterSum(n, k, upTo - 1) + (if upTo - 1 <= k || n <= upTo - 1 + k then Choose(n, upTo - 1) else 0)
  }

  lemma {:induction false} OuterSumTails(n: nat, k: nat, upTo: nat)
    requires 2 * k < n && upTo <= n + 1
    ensures upTo <= k + 1 ==> OuterSum(n, k, upTo) == ChooseSum(n, upTo)
    ensures k + 1 <= upTo <= n - k ==> OuterSum(n, k, upTo) == ChooseSum(n, k + 1)
    ensures n - k <= upTo ==> OuterSum(n, k, upTo) == ChooseSum(n, k + 1) + ChooseSum(n, upTo) - ChooseSum(n, n - k)
  {
    if upTo > 0 {
      OuterSumTails(n, k, upTo - 1);
    }
  }

  lemma {:induction false} OuterSumEverything(n: nat, k: nat, upTo: nat)
    requires n <= 2 * k + 1 && upTo <= n + 1
    ensures OuterSum(n, k, upTo) == ChooseSum(n, upTo)
  {
    if upTo > 0 {
      OuterSumEverything(n, k, upTo - 1);
    }
  }

  /** A slack too small to reach the next integer coefficient selects the same outcomes. */
  predicate SlackHarmless(n: nat, slack: real) { 0.0 <= slack < Pow(0.5, n) }

  lemma SelectedOutcomes(n: nat, k: nat, x: nat, slack: real)
    requires 2 * k <= n && x <= n && SlackHarmless(n, slack)
    ensures Pmf(n, x, 0.5) <= Pmf(n, k, 0.5) + slack <==> (x <= k || n <= x + k)
  {
    FairPmf(n, x);
    FairPmf(n, k);
    ChooseTails(n, x, k);
    HalfPowerInverse(n);
    SharesOrder(Choose(n, x), Choose(n, k), Pow(0.5, n), slack);
  }

  lemma {:induction false} TailMassIsOuterSum(n: nat, k: nat, slack: real, upTo: nat)
    requires 2 * k <= n && upTo <= n + 1 && SlackHarmless(n, slack)
    ensures TailMass(n, 0.5, Pmf(n, k, 0.5) + slack, upTo) == Shares(OuterSum(n, k, upTo), Pow(0.5, n))
  {
    if upTo > 0 {
      TailMassIsOuterSum(n, k, slack, upTo - 1);
      SelectedOutcomes(n, k, upTo - 1, slack);
      FairPmf(n, upTo - 1);
      SharesAdd(OuterSum(n, k, upTo - 1), Choose(n, upTo - 1), Pow(0.5, n));
    }
  }

  /** P(X <= k) for a fair coin. */
  function LowerTail(n: nat, k: nat): real
    requires k <= n
  {
    Pmf(n, k, 0.5) + if k == 0 then 0.0 else LowerTail(n, k - 1)
  }

  lemma {:induction false} LowerTailShares(n: nat, k: nat)
    requires k <= n
    ensures LowerTail(n, k) == Shares(ChooseSum(n, k + 1), Pow(0.5, n))
  {
    FairPmf(n, k);
    if k > 0 {
      LowerTailShares(n, k - 1);
    }
    SharesAdd(ChooseSum(n, k), Choose(n, k), Pow(0.5, n));
  }

  lemma OuterSumDoubles(n: nat, k: nat)
    requires 2 * k <= n
    ensures 2 * k < n ==> OuterSum(n, k, n + 1) == 2 * ChooseSum(n, k + 1) <= TwoTo(n)
    ensures 2 * k == n ==> OuterSum(n, k, n + 1) == TwoTo(n) < 2 * ChooseSum(n, k + 1)
    ensures 2 * ChooseSum(n, k + 1) >= TwoTo(n) <==> n <= 2 * k + 1
  {
    ChooseSumAll(n);
    ChooseSumMirror(n, k + 1);
    if 2 * k < n {
      OuterSumTails(n, k, n + 1);
      ChooseSumMonotone(n, k + 1, n - k);
    } else {
      OuterSumEverything(n, k, n + 1);
      assert ChooseSum(n, k + 1) == ChooseSum(n, k) + Choose(n, k);
      ChooseBelow(n, 0, k);
    }
  }

  lemma {:induction false} ChooseSumMonotone(n: nat, a: nat, b: nat)
    requires a <= b <= n + 1
    ensures ChooseSum(n, a) <= ChooseSum(n, b)
    ensures a < b ==> ChooseSum(n, a) < ChooseSum(n, b)
  {
    if a < b {
      ChooseSumMonotone(n, a, b - 1);
      ChoosePositive(n, b - 1);
    }
  }

  lemma {:induction false} ChoosePositive(n: nat, k: nat)
    requires k <= n
    ensures Choose(n, k) >= 1
  {
    if k == n {
      ChooseAll(n);
    } else if k > 0 {
      ChoosePositive(n - 1, k);
    }
  }

  /** In exact arithmetic the two-sided p-value is min(1, twice the lower tail), for every fair
      test; any slack below 2^-n gives the very same value. */
  lemma TwoSidedIsDoubledTail(k: nat, n: nat, slack: real)
    requires 2 * k <= n && n > 0 && SlackHarmless(n, slack)
    ensures BinomTwoSided(k, n, 0.5, slack) == Min(1.0, 2.0 * LowerTail(n, k))
    ensures 0.0 < BinomTwoSided(k, n, 0.5, slack) <= 1.0
    ensures BinomTwoSided(k, n, 0.5, slack) == 1.0 <==> n <= 2 * k + 1
  {
    var h, c := Pow(0.5, n), ChooseSum(n, k + 1);
    TailMassIsOuterSum(n, k, slack, n + 1);
    OuterSumDoubles(n, k);
    HalfPowerInverse(n);
    LowerTailShares(n, k);
    SharesAdd(c, c, h);
    assert Shares(2 * c, h) == 2.0 * LowerTail(n, k);
    SharesOrder(2 * c, TwoTo(n), h, 0.0);
    SharesOrder(TwoTo(n), 2 * c, h, 0.0);
    ChooseSumMonotone(n, 0, k + 1);
  }

  lemma {:induction false} SlackOnlyAdds(n: nat, limit: real, wider: real, upTo: nat)
    requires upTo <= n + 1 && limit <= wider
    ensures 0.0 <= TailMass(n, 0.5, limit, upTo) <= TailMass(n, 0.5, wider, upTo)
  {
    if upTo > 0 {
      SlackOnlyAdds(n, limit, wider, upTo - 1);
      FairPmf(n, upTo - 1);
      HalfPowerInverse(n);
      SharesOrder(Choose(n, upTo - 1), 0, Pow(0.5, n), 0.0);
    }
  }

  /** With any slack the reported value is never below the exact one, and stays in (0, 1]. */
  lemma SlackNeverLowersP(k: nat, n: nat, slack: real)
    requires 2 * k <= n && n > 0 && slack >= 0.0
    ensures Min(1.0, 2.0 * LowerTail(n, k)) <= BinomTwoSided(k, n, 0.5, slack) <= 1.0
  {
    HalfPowerInverse(n);
    TwoSidedIsDoubledTail(k, n, 0.0);
    SlackOnlyAdds(n, Pmf(n, k, 0.5), Pmf(n, k, 0.5) + slack, n + 1);
  }

  lemma {:induction false} SameSelectionSameMass(n: nat, limit: real, wider: real, upTo: nat)
    requires upTo <= n + 1
    requires forall x :: 0 <= x < upTo ==> (Pmf(n, x, 0.5) <= limit <==> Pmf(n, x, 0.5) <= wider)
    ensures TailMass(n, 0.5, limit, upTo) == TailMass(n, 0.5, wider, upTo)
  {
    if upTo > 0 {
      SameSelectionSameMass(n, limit, wider, upTo - 1);
    }
  }

  lemma {:induction false} ExtraOutcomeAddsMass(n: nat, limit: real, wider: real, x: nat, upTo: nat)
    requires x < upTo <= n + 1 && limit < Pmf(n, x, 0.5) <= wider
    ensures TailMass(n, 0.5, wider, upTo) >= TailMass(n, 0.5, limit, upTo) + Pmf(n, x, 0.5)
  {
    if x == upTo - 1 {
      SlackOnlyAdds(n, limit, wider, upTo - 1);
    } else {
      ExtraOutcomeAddsMass(n, limit, wider, x, upTo - 1);
      FairPmfOrder(n, upTo - 1, upTo - 1);
    }
  }

  lemma FairPmfOrder(n: nat, x: nat, y: nat)
    requires x <= n && y <= n
    ensures Pmf(n, x, 0.5) <= Pmf(n, y, 0.5) <==> Choose(n, x) <= Choose(n, y)
    ensures Pmf(n, x, 0.5) > 0.0
  {
    FairPmf(n, x);
    FairPmf(n, y);
    HalfPowerInverse(n);
    ChoosePositive(n, x);
    SharesOrder(Choose(n, x), Choose(n, y), Pow(0.5, n), 0.0);
  }

  /** Outcome k+1 is the least likely of those the exact test leaves out. */
  lemma NextOutcomeIsLeast(n: nat, k: nat, x: nat)
    requires k < x < n - k
    ensures Pmf(n, k + 1, 0.5) <= Pmf(n, x, 0.5)
  {
    FairPmfOrder(n, k + 1, x);
    if 2 * x <= n {
      ChooseBelow(n, k + 1, x);
    } else {
      ChooseSymmetric(n, x);
      ChooseBelow(n, k + 1, n - x);
    }
  }

  /** The slack leaves the exact p-value alone exactly when the discordance is balanced or the
      next outcome is still out of the slack's reach. */
  lemma SlackHarmlessExactly(k: nat, n: nat, slack: real)
    requires 2 * k <= n && n > 0 && slack >= 0.0
    ensures BinomTwoSided(k, n, 0.5, slack) == Min(1.0, 2.0 * LowerTail(n, k))
       <==> (n <= 2 * k + 1 || Pmf(n, k + 1, 0.5) > Pmf(n, k, 0.5) + slack)
  {
    var limit := Pmf(n, k, 0.5);
    HalfPowerInverse(n);
    TwoSidedIsDoubledTail(k, n, 0.0);
    if n <= 2 * k + 1 {
      SlackOnlyAdds(n, limit, limit + slack, n + 1);
    } else if Pmf(n, k + 1, 0.5) > limit + slack {
      forall x | 0 <= x < n + 1 ensures Pmf(n, x, 0.5) <= limit <==> Pmf(n, x, 0.5) <= limit + slack {
        FairPmfOrder(n, x, k);
        ChooseTails(n, x, k);
        if k < x < n - k {
          NextOutcomeIsLeast(n, k, x);
        }
      }
      SameSelectionSameMass(n, limit, limit + slack, n + 1);
    } else {
      FairPmfOrder(n, k + 1, k);
      ChooseTails(n, k + 1, k);
      ExtraOutcomeAddsMass(n, limit, limit + slack, k + 1, n + 1);
    }
  }

  lemma {:induction false} HalfPowerDecreases(a: nat, b: nat)
    requires a <= b
    ensures Pow(0.5, b) <= Pow(0.5, a)
  {
    if a < b {
      HalfPowerDecreases(a, b - 1);
      HalfPowerInverse(b - 1);
    }
  }

  /** The 1e-12 slack cannot change a p-value over at most 39 discordant pairs. */
  lemma SlackHarmlessUpTo39(n: nat)
    requires n <= 39
    ensures SlackHarmless(n, SLACK)
  {
    HalfPowerDecreases(n, 39);
    HalfPowers(20, 19);
    HalfPowers(10, 10);
    HalfPowers(10, 9);
    HalfPowers(5, 5);
    HalfPowers(5, 4);
  }

  function Factorial(n: nat): (f: nat)
    ensures f > 0
  {
    if n == 0 then 1 else n * Factorial(n - 1)
  }

  lemma ScaledLeft(c: nat, f: nat, g: nat, k: nat, total: nat)
    requires c * f * g == total
    ensures c * (k * f) * g == k * total && c * f * (k * g) == k * total
  {
    assert c * (k * f) * g == k * (c * f * g);
    assert c * f * (k * g) == k * (c * f * g);
  }

  lemma AddedUp(a: nat, b: nat, f: nat, g: nat, k: nat, n: nat, total: nat)
    requires k <= n && a * f * g == k * total && b * f * g == (n - k) * total
    ensures (a + b) * f * g == n * total
  {
    assert (a + b) * f * g == a * f * g + b * f * g;
    assert k * total + (n - k) * total == n * total;
  }

  /** The coefficients are the binomial ones. */
  lemma {:induction false} ChooseExactly(n: nat, k: nat)
    ensures k > n ==> Choose(n, k) == 0
    ensures k <= n ==> Choose(n, k) * Factorial(k) * Factorial(n - k) == Factorial(n)
    decreases n
  {
    if 0 < k && 0 < n {
      ChooseExactly(n - 1, k - 1);
      ChooseExactly(n - 1, k);
      if k <= n {
        var before := Factorial(n - 1);
        ScaledLeft(Choose(n - 1, k - 1), Factorial(k - 1), Factorial(n - k), k, before);
        if k < n { ScaledLeft(Choose(n - 1, k), Factorial(k), Factorial(n - 1 - k), n - k, before); }
        ChooseStep(n, k, before);
      }
    }
  }

  lemma ChooseStep(n: nat, k: nat, before: nat)
    requires 0 < k <= n && before == Factorial(n - 1)
    requires Choose(n - 1, k - 1) * Factorial(k) * Factorial(n - k) == k * before
    requires Choose(n - 1, k) * Factorial(k) * Factorial(n - k) == (n - k) * before
    ensures Choose(n, k) * Factorial(k) * Factorial(n - k) == Factorial(n)
  {
    assert Choose(n, k) == Choose(n - 1, k - 1) + Choose(n - 1, k) && Factorial(n) == n * before;
    hide Choose, Factorial;
    AddedUp(Choose(n - 1, k - 1), Choose(n - 1, k), Factorial(k), Factorial(n - k), k, n, before);
  }

  // ---- McNemar ---------------------------------------------------------------------------------

  datatype Result = LengthMismatch | P(value: real)

  /** Pairs the first sample gets right (at least 0.5) and the second wrong. */
  function Discordant(right: seq<real>, wrong: seq<real>): (count: nat)
    requires |right| == |wrong|
  {
    if right == [] then 0
    else (if right[0] >= 0.5 && wrong[0] < 0.5 then 1 else 0) + Discordant(right[1..], wrong[1..])
  }

  /** `_binom_two_sided_p` as it reports: to four decimals. */
  function ReportedBinom(k: nat, n: nat, slack: real): real
    requires k <= n
  {
    Round4(BinomTwoSided(k, n, 0.5, slack))
  }

  function Least(b: nat, c: nat): nat { if c < b then c else b }

  function McNemarP(base: seq<real>, ft: seq<real>): Result {
    if |base| != |ft| then LengthMismatch
    else
      var b, c := Discordant(base, ft), Discordant(ft, base);
      if b + c == 0 then P(1.0) else P(ReportedBinom(Least(b, c), b + c, SLACK))
  }

  /** The test does not depend on which sample is called the base. */
  lemma McNemarSymmetric(base: seq<real>, ft: seq<real>)
    ensures McNemarP(base, ft) == McNemarP(ft, base)
  {
  }

  /** The pairs the base gets right and the other sample wrong. */
  function Lost(base: seq<real>, ft: seq<real>): set<nat>
    requires |base| == |ft|
  {
    set i: nat | 0 <= i < |base| && base[i] >= 0.5 && ft[i] < 0.5
  }

  /** The pairs the base gets wrong and the other sample right. */
  function Won(base: seq<real>, ft: seq<real>): set<nat>
    requires |base| == |ft|
  {
    set i: nat | 0 <= i < |base| && base[i] < 0.5 && ft[i] >= 0.5
  }

  function LostFrom(base: seq<real>, ft: seq<real>, i: nat): set<nat>
    requires |base| == |ft|
  {
    set j: nat | i <= j < |base| && base[j] >= 0.5 && ft[j] < 0.5
  }

  lemma {:induction false} DiscordantFrom(base: seq<real>, ft: seq<real>, i: nat)
    requires i <= |base| == |ft|
    ensures Discordant(base[i..], ft[i..]) == |LostFrom(base, ft, i)|
    decreases |base| - i
  {
    if i < |base| {
      DiscordantFrom(base, ft, i + 1);
      assert base[i..][1..] == base[i + 1..] && ft[i..][1..] == ft[i + 1..];
      var first: set<nat> := if base[i] >= 0.5 && ft[i] < 0.5 then {i} else {};
      assert LostFrom(base, ft, i) == first + LostFrom(base, ft, i + 1);
    }
  }

  lemma DiscordantCounts(base: seq<real>, ft: seq<real>)
    requires |base| == |ft|
    ensures Discordant(base, ft) == |Lost(base, ft)|
  {
    DiscordantFrom(base, ft, 0);
    assert base[0..] == base && ft[0..] == ft;
    assert LostFrom(base, ft, 0) == Lost(base, ft);
  }

  /** The test looks at the discordant pairs alone, and counts each kind. */
  lemma CountsDiscordantPairs(base: seq<real>, ft: seq<real>)
    requires |base| == |ft|
    ensures Discordant(base, ft) == |Lost(base, ft)| && Discordant(ft, base) == |Won(base, ft)|
  {
    DiscordantCounts(base, ft);
    DiscordantCounts(ft, base);
    assert Lost(ft, base) == Won(base, ft);
  }

  /** Without a discordant pair the value is 1. Otherwise it comes from the doubled exact tail exactly when the
      two kinds of discordance differ by at most one, or the next outcome is out of the slack's reach; else it
      can only be larger. It lies in [0, 1], and is 0 exactly when the value before rounding is at most half a
      digit. */
  lemma McNemarExactWhen(base: seq<real>, ft: seq<real>)
    requires |base| == |ft|
    ensures Lost(base, ft) == Won(base, ft) == {} ==> McNemarP(base, ft) == P(1.0)
    ensures Lost(base, ft) + Won(base, ft) != {} ==>
              var b, c := |Lost(base, ft)|, |Won(base, ft)|;
              var k, n := if c < b then c else b, b + c;
              var exact := Min(1.0, 2.0 * LowerTail(n, k));
              && McNemarP(base, ft).P? && Round4(exact) <= McNemarP(base, ft).value <= 1.0
              && (BinomTwoSided(k, n, 0.5, SLACK) == exact
                  <==> (-1 <= b - c <= 1 || Pmf(n, k + 1, 0.5) > Pmf(n, k, 0.5) + SLACK))
              && (McNemarP(base, ft).value <= 0.0 <==> BinomTwoSided(k, n, 0.5, SLACK) <= 0.00005)
  {
    hide Lost, Won, Discordant, BinomTwoSided, LowerTail, Pmf, Round4;
    CountsDiscordantPairs(base, ft);
    var b, c := Discordant(base, ft), Discordant(ft, base);
    if b + c > 0 {
      var k, n := Least(b, c), b + c;
      SlackHarmlessExactly(k, n, SLACK);
      SlackNeverLowersP(k, n, SLACK);
      var p := BinomTwoSided(k, n, 0.5, SLACK);
      RoundingLaws(Min(1.0, 2.0 * LowerTail(n, k)), p);
      RoundingLaws(p, 1.0);
      SignAfterRounding(p);
    }
  }

  /** Up to 39 discordant pairs the slack never matters: the reported value is the doubled exact tail to
      four decimals, and it is 1 exactly when that tail reaches 0.99995. */
  lemma McNemarSmallSample(base: seq<real>, ft: seq<real>)
    requires |base| == |ft|
    requires 0 < |Lost(base, ft)| + |Won(base, ft)| <= 39
    ensures var b, c := |Lost(base, ft)|, |Won(base, ft)|;
            var exact := Min(1.0, 2.0 * LowerTail(b + c, if c < b then c else b));
            && McNemarP(base, ft) == P(Round4(exact))
            && (McNemarP(base, ft) == P(1.0) <==> exact >= 0.99995)
            && (exact == 1.0 <==> -1 <= b - c <= 1)
  {
    CountsDiscordantPairs(base, ft);
    var b, c := Discordant(base, ft), Discordant(ft, base);
    SlackHarmlessUpTo39(b + c);
    TwoSidedIsDoubledTail(Least(b, c), b + c, SLACK);
    OneAfterRounding(Min(1.0, 2.0 * LowerTail(b + c, Least(b, c))));
  }
}
