/** The tie-averaged ranks, tie-corrected variance and statistic of the paired Wilcoxon test. */
module Wilcoxon {
  import opened Sequences
  import opened Sorting

  function Abs(x: real): real { if x < 0.0 then -x else x }

  function Square(x: real): real { x * x }

  function Min(x: real, y: real): real { if y < x then y else x }

  // ---- what the ranks mean, independently of how they are computed ------------------------------

  function Count(s: seq<real>, p: real -> bool): nat {
    if s == [] then 0 else (if p(s[0]) then 1 else 0) + Count(s[1..], p)
  }

  function LessThan(v: real): real -> bool { (x: real) => x < v }

  function EqualTo(v: real): real -> bool { (x: real) => x == v }

  /** How many values lie strictly below `v`. */
  function Below(s: seq<real>, v: real): nat { Count(s, LessThan(v)) }

  /** How many values equal `v`. */
  function Ties(s: seq<real>, v: real): nat { Count(s, EqualTo(v)) }

  /** The average of the 1-based positions the values equal to `v` take in sorted order. */
  function MidRank(s: seq<real>, v: real): real { Below(s, v) as real + (Ties(s, v) + 1) as real / 2.0 }

  function RankIn(s: seq<real>): real -> real { (v: real) => MidRank(s, v) }

  function SquaredRankIn(s: seq<real>): real -> real { (v: real) => Square(MidRank(s, v)) }

  /** A tie group of size t contributes t * (t^2 - 1) = t^3 - t. */
  function TieExcess(s: seq<real>): real -> real { (v: real) => Square(Ties(s, v) as real) - 1.0 }

  function TieCorrection(s: seq<real>): real { SumMap(s, TieExcess(s)) }

  function Magnitudes(diffs: seq<real>): (m: seq<real>)
    ensures |m| == |diffs| && forall i :: 0 <= i < |m| ==> m[i] == Abs(diffs[i])
  {
    seq(|diffs|, i requires 0 <= i < |diffs| => Abs(diffs[i]))
  }

  function SignedRank(m: seq<real>, positive: bool): real -> real {
    (d: real) => if (if positive then d > 0.0 else d < 0.0) then MidRank(m, Abs(d)) else 0.0
  }

  /** Sum of the ranks of the positive (or negative) differences. */
  function RankSum(diffs: seq<real>, positive: bool): real {
    SumMap(diffs, SignedRank(Magnitudes(diffs), positive))
  }

  // ---- sums over constant blocks and tie groups ------------------------------------------------

  lemma {:induction false} CountConcat(a: seq<real>, b: seq<real>, p: real -> bool)
    ensures Count(a + b, p) == Count(a, p) + Count(b, p)
  {
    if a == [] {
      Unit(b);
    } else {
      ConsTail(a, b);
      CountConcat(a[1..], b, p);
    }
  }

  lemma {:induction false} CountConstant(s: seq<real>, p: real -> bool, c: bool)
    requires forall k :: 0 <= k < |s| ==> p(s[k]) == c
    ensures Count(s, p) == if c then |s| else 0
  {
    if s != [] {
      CountConstant(s[1..], p, c);
    }
  }

  lemma CountAround(a: seq<real>, x: real, b: seq<real>, p: real -> bool)
    ensures Count(a + ([x] + b), p) == Count(a + b, p) + (if p(x) then 1 else 0)
  {
    CountConcat(a, [x] + b, p);
    CountConcat([x], b, p);
    CountConcat(a, b, p);
  }

  lemma CountWithout(s: seq<real>, j: nat, p: real -> bool)
    requires j < |s|
    ensures Count(s, p) == Count(Without(s, j), p) + (if p(s[j]) then 1 else 0)
  {
    Around(s, j);
    CountAround(s[..j], s[j], s[j + 1..], p);
  }

  lemma {:induction false} CountPermutation(a: seq<real>, b: seq<real>, p: real -> bool)
    requires multiset(a) == multiset(b)
    ensures Count(a, p) == Count(b, p)
    decreases |a|
  {
    if a == [] {
      assert |multiset(b)| == 0;
    } else {
      var j := MatchFirst(a, b);
      CountWithout(a, 0, p);
      CountWithout(b, j, p);
      CountPermutation(Without(a, 0), Without(b, j), p);
    }
  }

  lemma {:induction false} SumConstant(s: seq<real>, f: real -> real, c: real, n: real)
    requires forall k :: 0 <= k < |s| ==> f(s[k]) == c
    requires n == |s| as real
    ensures SumMap(s, f) == n * c
  {
    if s != [] {
      SumConstant(s[1..], f, c, n - 1.0);
      assert (n - 1.0) * c == n * c - c;
    }
  }

  lemma SumSplit(s: seq<real>, f: real -> real, i: nat, j: nat)
    requires i <= j <= |s|
    ensures SumMap(s[i..], f) == SumMap(s[i..j], f) + SumMap(s[j..], f)
  {
    Thirds(s, i, j);
    SumMapConcat(s[i..j], s[j..], f);
  }

  /** `[i, j)` is a maximal block of equal values of a sorted sequence. */
  ghost predicate TieGroup(s: seq<real>, i: nat, j: nat) {
    && i < j <= |s|
    && (forall k :: i <= k < j ==> s[k] == s[i])
    && (i > 0 ==> s[i - 1] < s[i])
    && (j < |s| ==> s[i] < s[j])
  }

  ghost predicate GroupStart(s: seq<real>, i: nat) {
    i <= |s| && (0 < i < |s| ==> s[i - 1] < s[i])
  }

  lemma GroupEnd(s: seq<real>, i: nat) returns (j: nat)
    requires Ascending(s) && GroupStart(s, i) && i < |s|
    ensures TieGroup(s, i, j) && GroupStart(s, j)
  {
    j := i + 1;
    while j < |s| && s[j] == s[i]
      invariant i < j <= |s|
      invariant forall k :: i <= k < j ==> s[k] == s[i]
    {
      j := j + 1;
    }
  }

  lemma CountThree(a: seq<real>, b: seq<real>, c: seq<real>, p: real -> bool)
    ensures Count(a + (b + c), p) == Count(a, p) + Count(b, p) + Count(c, p)
  {
    CountConcat(a, b + c, p);
    CountConcat(b, c, p);
  }

  lemma CountThreeBlocks(s: seq<real>, p: real -> bool, i: nat, j: nat)
    requires i <= j <= |s|
    ensures Count(s, p) == Count(s[..i], p) + Count(s[i..j], p) + Count(s[j..], p)
  {
    Thirds(s, i, j);
    CountThree(s[..i], s[i..j], s[j..], p);
  }

  /** Every member of a tie group gets the average of the positions i+1 .. j. */
  lemma GroupRank(s: seq<real>, i: nat, j: nat)
    requires Ascending(s) && TieGroup(s, i, j)
    ensures Below(s, s[i]) == i && Ties(s, s[i]) == j - i
    ensures MidRank(s, s[i]) == (i + 1 + j) as real / 2.0
  {
    hide Count;
    var v := s[i];
    CountThreeBlocks(s, LessThan(v), i, j);
    CountConstant(s[..i], LessThan(v), true);
    CountConstant(s[i..j], LessThan(v), false);
    CountConstant(s[j..], LessThan(v), false);
    CountThreeBlocks(s, EqualTo(v), i, j);
    CountConstant(s[..i], EqualTo(v), false);
    CountConstant(s[i..j], EqualTo(v), true);
    CountConstant(s[j..], EqualTo(v), false);
  }

  /** 1 + ... + k. */
  function Triangle(k: real): real { k * (k + 1.0) / 2.0 }

  /** 1^2 + ... + k^2. */
  function Pyramid(k: real): real { k * (k + 1.0) * (2.0 * k + 1.0) / 6.0 }

  /** The block a+1 .. b seen through its average: same sum, and a sum of squares short by
      (t^3 - t) / 12 for t = b - a. */
  lemma BlockArithmetic(a: real, b: real)
    ensures (b - a) * ((a + 1.0 + b) / 2.0) == Triangle(b) - Triangle(a)
    ensures (b - a) * Square((a + 1.0 + b) / 2.0) == Pyramid(b) - Pyramid(a) - (b - a) * (Square(b - a) - 1.0) / 12.0
  {
  }

  lemma GroupRankSum(s: seq<real>, i: nat, j: nat, a: real, b: real)
    requires Ascending(s) && TieGroup(s, i, j) && a == i as real && b == j as real
    ensures SumMap(s[i..j], RankIn(s)) == (b - a) * ((a + 1.0 + b) / 2.0)
  {
    GroupRank(s, i, j);
    assert MidRank(s, s[i]) == (a + 1.0 + b) / 2.0;
    SumConstant(s[i..j], RankIn(s), MidRank(s, s[i]), b - a);
  }

  lemma GroupSquareSum(s: seq<real>, i: nat, j: nat, a: real, b: real)
    requires Ascending(s) && TieGroup(s, i, j) && a == i as real && b == j as real
    ensures SumMap(s[i..j], SquaredRankIn(s)) == (b - a) * Square((a + 1.0 + b) / 2.0)
  {
    hide SumMap;
    GroupRank(s, i, j);
    assert MidRank(s, s[i]) == (a + 1.0 + b) / 2.0;
    SumConstant(s[i..j], SquaredRankIn(s), Square((a + 1.0 + b) / 2.0), b - a);
  }

  lemma GroupExcess(s: seq<real>, i: nat, j: nat, t: real)
    requires Ascending(s) && TieGroup(s, i, j) && t == (j - i) as real
    ensures SumMap(s[i..j], TieExcess(s)) == t * (Square(t) - 1.0) == t * t * t - t
  {
    hide SumMap, MidRank;
    GroupRank(s, i, j);
    SumConstant(s[i..j], TieExcess(s), Square(t) - 1.0, t);
  }

  lemma GroupSums(s: seq<real>, i: nat, j: nat)
    requires Ascending(s) && TieGroup(s, i, j)
    ensures SumMap(s[i..j], RankIn(s)) == Triangle(j as real) - Triangle(i as real)
    ensures SumMap(s[i..j], SquaredRankIn(s))
         == Pyramid(j as real) - Pyramid(i as real) - SumMap(s[i..j], TieExcess(s)) / 12.0
  {
    hide SumMap, MidRank;
    var a, b := i as real, j as real;
    GroupRankSum(s, i, j, a, b);
    GroupSquareSum(s, i, j, a, b);
    GroupExcess(s, i, j, b - a);
    BlockArithmetic(a, b);
  }

  lemma {:induction false} TotalsFrom(s: seq<real>, i: nat)
    requires Ascending(s) && GroupStart(s, i)
    ensures SumMap(s[i..], RankIn(s)) == Triangle(|s| as real) - Triangle(i as real)
    ensures SumMap(s[i..], SquaredRankIn(s))
         == Pyramid(|s| as real) - Pyramid(i as real) - SumMap(s[i..], TieExcess(s)) / 12.0
    decreases |s| - i
  {
    if i < |s| {
      var j := GroupEnd(s, i);
      GroupSums(s, i, j);
      TotalsFrom(s, j);
      SumSplit(s, RankIn(s), i, j);
      SumSplit(s, SquaredRankIn(s), i, j);
      SumSplit(s, TieExcess(s), i, j);
    }
  }

  /** Ranks depend on the values only, not on their order. */
  lemma MidRankPermutation(a: seq<real>, b: seq<real>, v: real)
    requires multiset(a) == multiset(b)
    ensures Below(a, v) == Below(b, v) && Ties(a, v) == Ties(b, v) && MidRank(a, v) == MidRank(b, v)
  {
    CountPermutation(a, b, LessThan(v));
    CountPermutation(a, b, EqualTo(v));
  }

  lemma TotalsPermutation(a: seq<real>, b: seq<real>)
    requires multiset(a) == multiset(b)
    ensures SumMap(a, RankIn(a)) == SumMap(b, RankIn(b))
    ensures SumMap(a, SquaredRankIn(a)) == SumMap(b, SquaredRankIn(b))
    ensures TieCorrection(a) == TieCorrection(b)
  {
    forall v ensures MidRank(a, v) == MidRank(b, v) && Ties(a, v) == Ties(b, v) {
      MidRankPermutation(a, b, v);
    }
    SumMapPermutation(a, b, RankIn(a));
    SumMapPermutation(a, b, SquaredRankIn(a));
    SumMapPermutation(a, b, TieExcess(a));
    SumMapCongruence(b, RankIn(a), RankIn(b));
    SumMapCongruence(b, SquaredRankIn(a), SquaredRankIn(b));
    SumMapCongruence(b, TieExcess(a), TieExcess(b));
  }

  /** Tie-averaged ranks always add up to n(n+1)/2, and their squares lose exactly a twelfth of the
      tie correction. */
  lemma RankTotals(m: seq<real>)
    ensures SumMap(m, RankIn(m)) == Triangle(|m| as real)
    ensures SumMap(m, SquaredRankIn(m)) == Pyramid(|m| as real) - TieCorrection(m) / 12.0
  {
    var s := Sort(m);
    TotalsPermutation(m, s);
    TotalsFrom(s, 0);
    assert s[0..] == s;
  }

  lemma {:induction false} SignsPartition(diffs: seq<real>, m: seq<real>)
    requires forall k :: 0 <= k < |diffs| ==> diffs[k] != 0.0
    ensures SumMap(diffs, SignedRank(m, true)) + SumMap(diffs, SignedRank(m, false))
         == SumMap(Magnitudes(diffs), RankIn(m))
  {
    if diffs != [] {
      SignsPartition(diffs[1..], m);
      assert Magnitudes(diffs)[1..] == Magnitudes(diffs[1..]);
    }
  }

  /** `w_plus + w_minus` is n(n+1)/2 whatever the data. */
  lemma RankSumsPartitionTriangle(diffs: seq<real>)
    requires forall k :: 0 <= k < |diffs| ==> diffs[k] != 0.0
    ensures RankSum(diffs, true) + RankSum(diffs, false) == Triangle(|diffs| as real)
  {
    SignsPartition(diffs, Magnitudes(diffs));
    RankTotals(Magnitudes(diffs));
  }

  /** The variance formula with its tie correction. */
  function TieCorrectedVariance(n: real, tieTerm: real): real {
    n * (n + 1.0) * (2.0 * n + 1.0) / 24.0 - tieTerm / 48.0
  }

  lemma {:induction false} SumOfSquaresPositive(s: seq<real>, m: seq<real>)
    requires s != [] && forall k :: 0 <= k < |s| ==> MidRank(m, s[k]) >= 1.0
    ensures SumMap(s, SquaredRankIn(m)) >= 1.0
  {
    var r := MidRank(m, s[0]);
    assert Square(r) >= 1.0;
    if |s| > 1 {
      SumOfSquaresPositive(s[1..], m);
    }
  }

  lemma {:induction false} CountAtLeast(s: seq<real>, v: real)
    requires v in s
    ensures Ties(s, v) >= 1
  {
    if s[0] != v {
      CountAtLeast(s[1..], v);
    }
  }

  /** The tie-corrected variance is a quarter of the sum of squared ranks, hence positive: the
      early exit for a non-positive variance can never be taken. */
  lemma VarianceIsQuarterOfSquares(m: seq<real>)
    ensures TieCorrectedVariance(|m| as real, TieCorrection(m)) == SumMap(m, SquaredRankIn(m)) / 4.0
    ensures m != [] ==> TieCorrectedVariance(|m| as real, TieCorrection(m)) > 0.0
  {
    RankTotals(m);
    if m != [] {
      forall k | 0 <= k < |m| ensures MidRank(m, m[k]) >= 1.0 {
        CountAtLeast(m, m[k]);
      }
      SumOfSquaresPositive(m, m);
    }
  }

  // ---- the test itself -------------------------------------------------------------------------

  datatype Outcome =
    | LengthMismatch
    | NoDifference
    | DegenerateVariance
    | Statistic(w: real, mean: real, variance: real)

  /** Paired differences with the zero ones dropped. */
  function NonZeroDiffs(base: seq<real>, ft: seq<real>): (d: seq<real>)
    requires |base| == |ft|
    ensures forall k :: 0 <= k < |d| ==> d[k] != 0.0
  {
    if base == [] then []
    else (if ft[0] != base[0] then [ft[0] - base[0]] else []) + NonZeroDiffs(base[1..], ft[1..])
  }

  function Indices(n: nat): (s: seq<nat>)
    ensures |s| == n && forall i :: 0 <= i < n ==> s[i] == i
  {
    seq(n, (i: nat) => i)
  }

  function KeyOf(m: seq<real>): nat -> real { (i: nat) => if i < |m| then m[i] else 0.0 }

  lemma OrderFacts(m: seq<real>, order: seq<nat>)
    requires multiset(order) == multiset(Indices(|m|)) && |order| == |m|
    ensures forall k :: 0 <= k < |order| ==> 0 <= order[k] < |m|
    ensures forall i :: 0 <= i < |m| ==> i in order
    ensures forall k, l :: 0 <= k < l < |order| ==> order[k] != order[l]
    ensures multiset(Arranged(m, order)) == multiset(m)
  {
    var ids := Indices(|m|);
    forall k | 0 <= k < |order| ensures 0 <= order[k] < |m| {
      assert order[k] in multiset(order);
    }
    forall i | 0 <= i < |m| ensures i in order {
      assert ids[i] in multiset(ids);
    }
    forall k, l | 0 <= k < l < |order| ensures order[k] != order[l] {
      if order[k] == order[l] {
        DistinctIndices(|m|, order[k]);
        TwiceInMultiset(order, k, l);
      }
    }
    ArrangedPermutation(m, order, ids);
    assert Arranged(m, ids) == m;
  }

  lemma {:induction false} DistinctIndices(n: nat, i: nat)
    requires i < n
    ensures multiset(Indices(n))[i] == 1
  {
    assert Indices(n) == Indices(n - 1) + [n - 1];
    if i < n - 1 {
      DistinctIndices(n - 1, i);
    } else {
      assert i !in Indices(n - 1);
    }
  }

  lemma TwiceInMultiset(s: seq<nat>, k: nat, l: nat)
    requires k < l < |s| && s[k] == s[l]
    ensures multiset(s)[s[k]] >= 2
  {
    assert s == s[..l] + s[l..];
    assert s[k] in s[..l] && s[l] in s[l..];
  }

  /** The values read in the given order of indices. */
  function Arranged(m: seq<real>, order: seq<nat>): (r: seq<real>)
    requires InRange(order, |m|)
    ensures |r| == |order|
  {
    seq(|order|, k requires 0 <= k < |order| => m[order[k]])
  }

  ghost predicate InRange(order: seq<nat>, n: nat) {
    forall k :: 0 <= k < |order| ==> order[k] < n
  }

  lemma ArrangedConcat(m: seq<real>, a: seq<nat>, b: seq<nat>)
    requires InRange(a, |m|) && InRange(b, |m|)
    ensures InRange(a + b, |m|) && Arranged(m, a + b) == Arranged(m, a) + Arranged(m, b)
  {
  }

  lemma ArrangedRemove(m: seq<real>, b: seq<nat>, j: nat)
    requires InRange(b, |m|) && j < |b|
    ensures InRange(Without(b, j), |m|)
    ensures multiset(Arranged(m, b)) == multiset(Arranged(m, Without(b, j))) + multiset{m[b[j]]}
  {
    var front, back, x := b[..j], b[j + 1..], [b[j]];
    assert b == front + (x + back);
    ArrangedConcat(m, front, x + back);
    ArrangedConcat(m, x, back);
    ArrangedConcat(m, front, back);
    assert Arranged(m, x) == [m[b[j]]];
  }

  lemma {:induction false} ArrangedPermutation(m: seq<real>, a: seq<nat>, b: seq<nat>)
    requires multiset(a) == multiset(b)
    requires InRange(a, |m|) && InRange(b, |m|)
    ensures multiset(Arranged(m, a)) == multiset(Arranged(m, b))
    decreases |a|
  {
    if a == [] {
      assert |multiset(b)| == 0;
    } else {
      var j := MatchFirst(a, b);
      ArrangedRemove(m, a, 0);
      ArrangedRemove(m, b, j);
      ArrangedPermutation(m, Without(a, 0), Without(b, j));
    }
  }

  /** The rank of each position of a sorted arrangement `s` of the magnitudes `m`. */
  ghost function PositionRanks(m: seq<real>, s: seq<real>): (r: seq<real>)
    ensures |r| == |s| && forall k :: 0 <= k < |s| ==> r[k] == MidRank(m, s[k])
  {
    seq(|s|, k requires 0 <= k < |s| => MidRank(m, s[k]))
  }

  lemma PositionRankInGroup(m: seq<real>, s: seq<real>, i: nat, j: nat)
    requires multiset(m) == multiset(s)
    requires Ascending(s) && TieGroup(s, i, j)
    ensures forall k :: i <= k < j ==> PositionRanks(m, s)[k] == (i + 1 + j) as real / 2.0
  {
    GroupRank(s, i, j);
    MidRankPermutation(m, s, s[i]);
  }

  ghost predicate Permutes(order: seq<nat>, n: nat) {
    && |order| == n
    && (forall k :: 0 <= k < n ==> order[k] < n)
    && (forall i :: 0 <= i < n ==> i in order)
    && (forall k, l :: 0 <= k < l < n ==> order[k] != order[l])
  }

  lemma SortedOrder(m: seq<real>, order: seq<nat>)
    requires order == SortBy(Indices(|m|), KeyOf(m))
    ensures Permutes(order, |m|)
    ensures Ascending(Arranged(m, order)) && multiset(Arranged(m, order)) == multiset(m)
  {
    OrderFacts(m, order);
    var s := Arranged(m, order);
    forall k, l | 0 <= k <= l < |s| ensures s[k] <= s[l] {
      assert s[k] == KeyOf(m)(order[k]) && s[l] == KeyOf(m)(order[l]);
    }
  }

  /** The inner scan shared by both loops: the last index of the run of ties starting at `i`. */
  method RunEnd(s: seq<real>, i: nat) returns (j: nat)
    requires Ascending(s) && GroupStart(s, i) && i < |s|
    ensures TieGroup(s, i, j + 1) && GroupStart(s, j + 1)
  {
    j := i;
    while j + 1 < |s| && s[j + 1] == s[i]
      invariant i <= j < |s|
      invariant forall k :: i <= k <= j ==> s[k] == s[i]
    {
      j := j + 1;
    }
  }

  /** The inner `for` of the rank loop. */
  method AssignRun(before: seq<real>, order: seq<nat>, i: nat, j: nat, rank: real) returns (ranks: seq<real>)
    requires Permutes(order, |before|) && i <= j < |before|
    ensures |ranks| == |before|
    ensures forall l :: i <= l <= j ==> ranks[order[l]] == rank
    ensures forall l :: 0 <= l < |order| && !(i <= l <= j) ==> ranks[order[l]] == before[order[l]]
  {
    ranks := before;
    for k := i to j + 1
      invariant |ranks| == |before|
      invariant forall l :: i <= l < k ==> ranks[order[l]] == rank
      invariant forall l :: 0 <= l < |order| && !(i <= l < k) ==> ranks[order[l]] == before[order[l]]
    {
      ranks := ranks[order[k] := rank];
    }
  }

  /** The rank loop: one average rank per maximal run of equal magnitudes in sorted order. */
  method AverageRanks(diffs: seq<real>) returns (ranks: seq<real>)
    ensures |ranks| == |diffs|
    ensures forall i :: 0 <= i < |diffs| ==> ranks[i] == MidRank(Magnitudes(diffs), Abs(diffs[i]))
  {
    hide MidRank, PositionRanks;
    var n := |diffs|;
    var m := Magnitudes(diffs);
    var order := SortBy(Indices(n), KeyOf(m));
    SortedOrder(m, order);
    var s := Arranged(m, order);
    ghost var target := PositionRanks(m, s);
    ranks := seq(n, _ => 0.0);
    var i := 0;
    while i < n
      invariant 0 <= i <= n && |ranks| == n
      invariant GroupStart(s, i)
      invariant forall k :: 0 <= k < i ==> ranks[order[k]] == target[k]
    {
      var j := RunEnd(s, i);
      var avgRank := (i + 1 + j + 1) as real / 2.0;
      PositionRankInGroup(m, s, i, j + 1);
      ranks := AssignRun(ranks, order, i, j, avgRank);
      i := j + 1;
    }
    RanksByPosition(m, order, ranks);
  }

  lemma RanksByPosition(m: seq<real>, order: seq<nat>, ranks: seq<real>)
    requires Permutes(order, |m|) && |ranks| == |m|
    requires forall k :: 0 <= k < |m| ==> ranks[order[k]] == PositionRanks(m, Arranged(m, order))[k]
    ensures forall i :: 0 <= i < |m| ==> ranks[i] == MidRank(m, m[i])
  {
    forall i | 0 <= i < |m| ensures ranks[i] == MidRank(m, m[i]) {
      assert i in order;
      var k :| 0 <= k < |order| && order[k] == i;
      assert Arranged(m, order)[k] == m[i];
    }
  }

  /** The tie correction of one run: t^3 - t when it is longer than one. */
  method RunTerm(s: seq<real>, i: nat, j: nat) returns (term: real)
    requires Ascending(s) && TieGroup(s, i, j)
    ensures term == SumMap(s[i..j], TieExcess(s))
  {
    var t := (j - i) as real;
    GroupExcess(s, i, j, t);
    term := 0.0;
    if t > 1.0 {
      term := t * t * t - t;
    }
  }

  /** The tie loop over sorted magnitudes. */
  method TieTerm(absd: seq<real>) returns (tieTerm: real)
    requires Ascending(absd)
    ensures tieTerm == TieCorrection(absd)
  {
    hide TieExcess;
    var n := |absd|;
    tieTerm := 0.0;
    assert absd[0..] == absd;
    var i := 0;
    while i < n
      invariant 0 <= i <= n
      invariant GroupStart(absd, i)
      invariant tieTerm + SumMap(absd[i..], TieExcess(absd)) == TieCorrection(absd)
    {
      var j := RunEnd(absd, i);
      var term := RunTerm(absd, i, j + 1);
      SumSplit(absd, TieExcess(absd), i, j + 1);
      tieTerm := tieTerm + term;
      i := j + 1;
    }
  }

  /** `sum(ranks[i] for i in range(n) if diffs[i] > 0)`, and the same for negative differences. */
  function SumWhereSigned(ranks: seq<real>, diffs: seq<real>, positive: bool): real
    requires |ranks| == |diffs|
  {
    if diffs == [] then 0.0
    else (if (if positive then diffs[0] > 0.0 else diffs[0] < 0.0) then ranks[0] else 0.0)
         + SumWhereSigned(ranks[1..], diffs[1..], positive)
  }

  lemma {:induction false} SumWhereSignedIsRankSum(ranks: seq<real>, diffs: seq<real>, m: seq<real>, positive: bool)
    requires |ranks| == |diffs|
    requires forall i :: 0 <= i < |diffs| ==> ranks[i] == MidRank(m, Abs(diffs[i]))
    ensures SumWhereSigned(ranks, diffs, positive) == SumMap(diffs, SignedRank(m, positive))
  {
    if diffs != [] {
      SumWhereSignedIsRankSum(ranks[1..], diffs[1..], m, positive);
    }
  }

  lemma SumsAreRankSums(ranks: seq<real>, diffs: seq<real>)
    requires |ranks| == |diffs|
    requires forall i :: 0 <= i < |diffs| ==> ranks[i] == MidRank(Magnitudes(diffs), Abs(diffs[i]))
    ensures SumWhereSigned(ranks, diffs, true) == RankSum(diffs, true)
    ensures SumWhereSigned(ranks, diffs, false) == RankSum(diffs, false)
  {
    SumWhereSignedIsRankSum(ranks, diffs, Magnitudes(diffs), true);
    SumWhereSignedIsRankSum(ranks, diffs, Magnitudes(diffs), false);
  }

  lemma VarianceFromSorted(m: seq<real>, n: real, tieTerm: real)
    requires m != [] && n == |m| as real && tieTerm == TieCorrection(Sort(m))
    ensures TieCorrectedVariance(n, tieTerm) == SumMap(m, SquaredRankIn(m)) / 4.0
    ensures TieCorrectedVariance(n, tieTerm) > 0.0
  {
    TotalsPermutation(Sort(m), m);
    VarianceIsQuarterOfSquares(m);
  }

  method WilcoxonSignedRank(base: seq<real>, ft: seq<real>) returns (r: Outcome)
    ensures r.LengthMismatch? <==> |base| != |ft|
    ensures |base| == |ft| ==>
              var diffs := NonZeroDiffs(base, ft);
              r == if diffs == [] then NoDifference
                   else Statistic(Min(RankSum(diffs, true), RankSum(diffs, false)),
                                  Triangle(|diffs| as real) / 2.0,
                                  SumMap(Magnitudes(diffs), SquaredRankIn(Magnitudes(diffs))) / 4.0)
  {
    hide SumMap, MidRank, Triangle, TieCorrection, RankSum, SumWhereSigned, TieCorrectedVariance;
    if |base| != |ft| {
      return LengthMismatch;
    }
    var diffs := NonZeroDiffs(base, ft);
    var n := |diffs|;
    if n == 0 {
      return NoDifference;
    }
    var ranks := AverageRanks(diffs);
    SumsAreRankSums(ranks, diffs);
    var wPlus := SumWhereSigned(ranks, diffs, true);
    var wMinus := SumWhereSigned(ranks, diffs, false);
    var w := Min(wPlus, wMinus);
    var meanW := Triangle(n as real) / 2.0;
    var tieTerm := TieTerm(Sort(Magnitudes(diffs)));
    var varW := TieCorrectedVariance(n as real, tieTerm);
    VarianceFromSorted(Magnitudes(diffs), n as real, tieTerm);
    if varW <= 0.0 {
      return DegenerateVariance;
    }
    return Statistic(w, meanW, varW);
  }

  lemma {:induction false} SwapNegates(base: seq<real>, ft: seq<real>)
    requires |base| == |ft|
    ensures var d, e := NonZeroDiffs(base, ft), NonZeroDiffs(ft, base);
            |d| == |e| && forall i :: 0 <= i < |d| ==> e[i] == -d[i]
  {
    if base != [] {
      SwapNegates(base[1..], ft[1..]);
    }
  }

  lemma {:induction false} NegationSwapsSigns(d: seq<real>, e: seq<real>, m: seq<real>, positive: bool)
    requires |d| == |e| && forall i :: 0 <= i < |d| ==> e[i] == -d[i]
    ensures SumMap(e, SignedRank(m, positive)) == SumMap(d, SignedRank(m, !positive))
  {
    if d != [] {
      NegationSwapsSigns(d[1..], e[1..], m, positive);
    }
  }

  lemma NegationKeepsMagnitudes(d: seq<real>, e: seq<real>)
    requires |d| == |e| && forall i :: 0 <= i < |d| ==> e[i] == -d[i]
    ensures Magnitudes(e) == Magnitudes(d)
  {
  }

  /** Swapping the two samples exchanges the rank sums and leaves the statistic and its variance. */
  lemma SwapSamples(base: seq<real>, ft: seq<real>)
    requires |base| == |ft|
    ensures var d, e := NonZeroDiffs(base, ft), NonZeroDiffs(ft, base);
            && RankSum(e, true) == RankSum(d, false)
            && RankSum(e, false) == RankSum(d, true)
            && Magnitudes(e) == Magnitudes(d)
  {
    var d, e := NonZeroDiffs(base, ft), NonZeroDiffs(ft, base);
    SwapNegates(base, ft);
    NegationKeepsMagnitudes(d, e);
    NegationSwapsSigns(d, e, Magnitudes(d), true);
    NegationSwapsSigns(d, e, Magnitudes(d), false);
  }

  lemma {:induction false} SignedSumBounds(diffs: seq<real>, m: seq<real>, positive: bool)
    ensures SumMap(diffs, SignedRank(m, positive)) >= 0.0
  {
    if diffs != [] {
      SignedSumBounds(diffs[1..], m, positive);
    }
  }

  /** The statistic lies between 0 and its null mean, which it reaches exactly when the two rank
      sums balance. */
  lemma StatisticBelowMean(diffs: seq<real>)
    requires forall k :: 0 <= k < |diffs| ==> diffs[k] != 0.0
    ensures var w := Min(RankSum(diffs, true), RankSum(diffs, false));
            && 0.0 <= w <= Triangle(|diffs| as real) / 2.0
            && (w == Triangle(|diffs| as real) / 2.0 <==> RankSum(diffs, true) == RankSum(diffs, false))
  {
    RankSumsPartitionTriangle(diffs);
    SignedSumBounds(diffs, Magnitudes(diffs), true);
    SignedSumBounds(diffs, Magnitudes(diffs), false);
  }
}
