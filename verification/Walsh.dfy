/** The rank sum counted another way: over pairs of differences, without any ranks. */
module Walsh {
  import opened Sequences
  import opened Sorting
  import opened Wilcoxon

  // ---- the differences ---------------------------------------------------------------------------------------

  /** The differences are those of the pairs that differ, in the order of the pairs. */
  lemma {:induction false} DiffsExactly(base: seq<real>, ft: seq<real>) returns (picks: seq<nat>)
    requires |base| == |ft|
    ensures |picks| == |NonZeroDiffs(base, ft)| && forall j, k :: 0 <= j < k < |picks| ==> picks[j] < picks[k]
    ensures forall k :: 0 <= k < |picks| ==>
              picks[k] < |base| && NonZeroDiffs(base, ft)[k] == ft[picks[k]] - base[picks[k]]
    ensures forall i: nat :: i in picks <==> i < |base| && ft[i] != base[i]
  {
    picks := DiffsFrom(base, ft, 0);
    assert base[0..] == base && ft[0..] == ft;
  }

  lemma {:induction false} DiffsFrom(base: seq<real>, ft: seq<real>, i: nat) returns (picks: seq<nat>)
    requires |base| == |ft| && i <= |base|
    ensures var d := NonZeroDiffs(base[i..], ft[i..]);
            && |picks| == |d| && (forall j, k :: 0 <= j < k < |picks| ==> picks[j] < picks[k])
            && forall k :: 0 <= k < |picks| ==> picks[k] < |base| && d[k] == ft[picks[k]] - base[picks[k]]
    ensures forall j: nat :: j in picks <==> i <= j < |base| && ft[j] != base[j]
    decreases |base| - i
  {
    if i == |base| {
      picks := [];
    } else {
      var rest := DiffsFrom(base, ft, i + 1);
      assert base[i..][1..] == base[i + 1..] && ft[i..][1..] == ft[i + 1..];
      assert forall k :: 0 <= k < |rest| ==> rest[k] in rest;
      picks := (if ft[i] != base[i] then [i] else []) + rest;
    }
  }

  // ---- pairs -------------------------------------------------------------------------------------------------

  /** A pair counts one if its sum is positive, one half if it is zero. */
  function Pair(x: real, y: real): real { if x + y > 0.0 then 1.0 else if x + y == 0.0 then 0.5 else 0.0 }

  function PairedWith(x: real): real -> real { (y: real) => Pair(x, y) }

  /** All pairs, each difference with itself and with every later one. */
  function WalshCount(d: seq<real>): real {
    if d == [] then 0.0 else SumMap(d, PairedWith(d[0])) + WalshCount(d[1..])
  }

  /** The part of a pair that goes to the rank of its first member. */
  function Share(x: real, y: real): real {
    if x <= 0.0 then 0.0 else if Abs(y) < x then 1.0 else if Abs(y) == x then 0.5 else 0.0
  }

  function SharedWith(x: real): real -> real { (y: real) => Share(x, y) }

  function Shares(t: seq<real>): real -> real { (x: real) => SumMap(t, SharedWith(x)) }

  lemma SharesMakePair(x: real, y: real)
    requires x != 0.0 && y != 0.0
    ensures Share(x, y) + Share(y, x) == Pair(x, y)
  {
  }

  function Sign(x: real): real { if x > 0.0 then 1.0 else 0.0 }

  function Signs(): real -> real { (x: real) => Sign(x) }

  lemma {:induction false} RankIsShares(s: seq<real>, x: real)
    requires x > 0.0
    ensures Below(Magnitudes(s), x) as real + Ties(Magnitudes(s), x) as real / 2.0 == SumMap(s, SharedWith(x))
  {
    if s != [] {
      RankIsShares(s[1..], x);
      assert Magnitudes(s)[1..] == Magnitudes(s[1..]);
    }
  }

  lemma {:induction false} NothingShared(s: seq<real>, x: real)
    requires x <= 0.0
    ensures SumMap(s, SharedWith(x)) == 0.0
  {
    if s != [] { NothingShared(s[1..], x); }
  }

  lemma {:induction false} RankSumIsShares(s: seq<real>, d: seq<real>)
    ensures SumMap(s, SignedRank(Magnitudes(d), true)) == SumMap(s, Shares(d)) + SumMap(s, Signs()) / 2.0
  {
    if s != [] {
      RankSumIsShares(s[1..], d);
      if s[0] > 0.0 { RankIsShares(d, s[0]); } else { NothingShared(d, s[0]); }
    }
  }

  /** Adding one difference to the second member of all pairs. */
  lemma {:induction false} SharesGrow(s: seq<real>, x: real, t: seq<real>)
    requires x != 0.0 && forall k :: 0 <= k < |s| ==> s[k] != 0.0
    ensures SumMap(s, SharedWith(x)) + SumMap(s, Shares([x] + t)) == SumMap(s, PairedWith(x)) + SumMap(s, Shares(t))
  {
    if s != [] {
      SharesGrow(s[1..], x, t);
      SharesMakePair(x, s[0]);
      assert ([x] + t)[1..] == t;
      assert Shares([x] + t)(s[0]) == Share(s[0], x) + Shares(t)(s[0]);
    }
  }

  lemma {:induction false} SharesAreWalsh(d: seq<real>)
    requires forall k :: 0 <= k < |d| ==> d[k] != 0.0
    ensures SumMap(d, Shares(d)) + SumMap(d, Signs()) / 2.0 == WalshCount(d)
  {
    if d != [] {
      var x, t := d[0], d[1..];
      SharesAreWalsh(t);
      SharesGrow(t, x, t);
      assert [x] + t == d;
      assert SumMap(d, Shares(d)) == Shares(d)(x) + SumMap(t, Shares(d));
      assert Shares(d)(x) == Share(x, x) + SumMap(t, SharedWith(x));
      assert SumMap(d, PairedWith(x)) == Pair(x, x) + SumMap(t, PairedWith(x));
    }
  }

  /** The sum of the ranks of the positive differences is the number of pairs with a positive sum, pairs with a
      zero sum counting half; the sum for the negative ones is the number of the other pairs. */
  lemma RankSumIsWalshCount(d: seq<real>)
    requires forall k :: 0 <= k < |d| ==> d[k] != 0.0
    ensures RankSum(d, true) == WalshCount(d)
    ensures RankSum(d, false) == (|d| * (|d| + 1)) as real / 2.0 - WalshCount(d)
  {
    hide SumMap, WalshCount, Shares, Triangle;
    RankSumIsShares(d, d);
    SharesAreWalsh(d);
    RankSumsPartitionTriangle(d);
    TriangleOf(|d|);
  }

  lemma TriangleOf(n: nat)
    ensures Triangle(n as real) == (n * (n + 1)) as real / 2.0
  {
    var x := n as real;
    assert (n * (n + 1)) as real == x * (x + 1.0);
  }
}
