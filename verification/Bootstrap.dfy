/** The percentile bootstrap interval on the mean paired delta, for any outcome of the generator. */
module Bootstrap {
  import opened Sequences
  import opened Sorting
  import opened Rounding

  // ---- linear-interpolation percentile ---------------------------------------------------------

  function Ceil(x: real): int { if x.Floor as real == x then x.Floor else x.Floor + 1 }

  function Position(n: nat, q: real): real { q * (n - 1) as real }

  lemma PositionInRange(n: nat, q: real)
    requires n > 0 && 0.0 <= q <= 1.0
    ensures 0.0 <= Position(n, q) <= (n - 1) as real
    ensures 0 <= Position(n, q).Floor <= Ceil(Position(n, q)) <= n - 1
  {
    Fraction(q, (n - 1) as real);
    FloorWithin(Position(n, q), n - 1);
  }

  lemma Fraction(q: real, m: real)
    requires 0.0 <= q <= 1.0 && 0.0 <= m
    ensures 0.0 <= q * m <= m
  {
    assert 0.0 <= (1.0 - q) * m;
  }

  lemma FloorWithin(x: real, n: nat)
    requires 0.0 <= x <= n as real
    ensures 0 <= x.Floor <= Ceil(x) <= n
  {
  }

  function Interpolate(a: real, b: real, frac: real): real { a * (1.0 - frac) + b * frac }

  function Percentile(s: seq<real>, q: real): real
    requires s != [] && 0.0 <= q <= 1.0
  {
    if |s| == 1 then s[0]
    else
      var pos := Position(|s|, q);
      PositionInRange(|s|, q);
      var lo, hi := pos.Floor, Ceil(pos);
      if lo == hi then s[lo] else Interpolate(s[lo], s[hi], pos - lo as real)
  }

  lemma InterpolateMonotone(a: real, b: real, f: real, g: real)
    requires a <= b && f <= g
    ensures Interpolate(a, b, f) <= Interpolate(a, b, g)
  {
    assert Interpolate(a, b, g) - Interpolate(a, b, f) == (b - a) * (g - f);
  }

  lemma InterpolateBetween(a: real, b: real, f: real, g: real)
    requires a <= b && 0.0 <= f <= g <= 1.0
    ensures a <= Interpolate(a, b, f) <= Interpolate(a, b, g) <= b
  {
    InterpolateMonotone(a, b, 0.0, f);
    InterpolateMonotone(a, b, f, g);
    InterpolateMonotone(a, b, g, 1.0);
  }

  /** The percentile lies between the two order statistics around its position. */
  lemma PercentileInSegment(s: seq<real>, q: real)
    requires s != [] && 0.0 <= q <= 1.0 && Ascending(s)
    ensures var pos := Position(|s|, q);
            0 <= pos.Floor <= Ceil(pos) < |s| && s[pos.Floor] <= Percentile(s, q) <= s[Ceil(pos)]
  {
    var pos := Position(|s|, q);
    PositionInRange(|s|, q);
    if pos.Floor != Ceil(pos) {
      InterpolateBetween(s[pos.Floor], s[Ceil(pos)], pos - pos.Floor as real, pos - pos.Floor as real);
    }
  }

  lemma PositionMonotone(n: nat, p: real, q: real)
    requires n > 0 && p <= q
    ensures Position(n, p) <= Position(n, q)
  {
    Scaled(p, q, (n - 1) as real);
  }

  lemma Scaled(p: real, q: real, m: real)
    requires p <= q && 0.0 <= m
    ensures p * m <= q * m
  {
    assert (q - p) * m >= 0.0;
  }

  /** Percentiles never cross, within a segment or across segments. */
  lemma PercentileMonotone(s: seq<real>, p: real, q: real)
    requires s != [] && 0.0 <= p <= q <= 1.0 && Ascending(s)
    ensures s[0] <= Percentile(s, p) <= Percentile(s, q) <= s[|s| - 1]
  {
    var x, y := Position(|s|, p), Position(|s|, q);
    PositionMonotone(|s|, p, q);
    PercentileInSegment(s, p);
    PercentileInSegment(s, q);
    if Ceil(x) <= y.Floor {
      assert s[Ceil(x)] <= s[y.Floor];
    } else if |s| > 1 && x.Floor == y.Floor && x.Floor != Ceil(x) {
      InterpolateBetween(s[x.Floor], s[Ceil(x)], x - x.Floor as real, y - x.Floor as real);
    }
  }

  /** Between the k-th and the next order statistic the percentile is linear: at (k + f) / (n - 1) it is f of
      the way. */
  lemma PercentileExactly(s: seq<real>, k: nat, f: real)
    requires k + 1 < |s| && 0.0 <= f <= 1.0
    ensures var q := (k as real + f) / (|s| - 1) as real;
            0.0 <= q <= 1.0 && Percentile(s, q) == s[k] + f * (s[k + 1] - s[k])
  {
    var n, x := (|s| - 1) as real, k as real + f;
    Shared(x, n);
    assert Position(|s|, x / n) == x;
    hide Position;
    if f == 0.0 {
      assert x.Floor == k && Ceil(x) == k;
    } else if f == 1.0 {
      assert x.Floor == k + 1 && Ceil(x) == k + 1;
    } else {
      assert x.Floor == k && Ceil(x) == k + 1;
    }
  }

  lemma Shared(x: real, n: real)
    requires 0.0 <= x <= n && n > 0.0
    ensures 0.0 <= x / n <= 1.0 && x / n * n == x
  {
  }

  function NegateReversed(s: seq<real>): (r: seq<real>)
    ensures |r| == |s| && forall i :: 0 <= i < |s| ==> r[i] == -s[|s| - 1 - i]
  {
    seq(|s|, i requires 0 <= i < |s| => -s[|s| - 1 - i])
  }

  lemma PositionMirror(n: nat, q: real)
    requires n > 0
    ensures Position(n, 1.0 - q) == (n - 1) as real - Position(n, q)
  {
    var m := (n - 1) as real;
    assert (1.0 - q) * m == m - q * m;
  }

  lemma InterpolateMirror(a: real, b: real, f: real)
    ensures Interpolate(-b, -a, 1.0 - f) == -Interpolate(a, b, f)
  {
  }

  /** Negating the data mirrors its percentiles. */
  lemma PercentileMirror(s: seq<real>, q: real)
    requires s != [] && 0.0 <= q <= 1.0
    ensures Percentile(NegateReversed(s), 1.0 - q) == -Percentile(s, q)
  {
    var n := |s|;
    var r, x, y := NegateReversed(s), Position(n, q), Position(n, 1.0 - q);
    PositionMirror(n, q);
    PositionInRange(n, q);
    PositionInRange(n, 1.0 - q);
    assert y.Floor == n - 1 - Ceil(x) && Ceil(y) == n - 1 - x.Floor;
    if n > 1 && x.Floor != Ceil(x) {
      InterpolateMirror(s[x.Floor], s[Ceil(x)], x - x.Floor as real);
      assert y - y.Floor as real == 1.0 - (x - x.Floor as real);
    }
  }

  // ---- resampling ------------------------------------------------------------------------------

  function Deltas(base: seq<real>, ft: seq<real>): (d: seq<real>)
    requires |base| == |ft|
    ensures |d| == |base| && forall i :: 0 <= i < |d| ==> d[i] == ft[i] - base[i]
  {
    seq(|base|, i requires 0 <= i < |base| => ft[i] - base[i])
  }

  /** One resample: the indices drawn for it, one per pair. */
  predicate ValidDraw(draw: seq<nat>, n: nat) {
    |draw| == n && forall k :: 0 <= k < n ==> draw[k] < n
  }

  /** Everything the generator produced. */
  predicate ValidDraws(draws: seq<seq<nat>>, n: nat) {
    forall r :: 0 <= r < |draws| ==> ValidDraw(draws[r], n)
  }

  function DrawnSum(deltas: seq<real>, draw: seq<nat>, upTo: nat): real
    requires upTo <= |draw| && forall k :: 0 <= k < |draw| ==> draw[k] < |deltas|
  {
    if upTo == 0 then 0.0 else DrawnSum(deltas, draw, upTo - 1) + deltas[draw[upTo - 1]]
  }

  function ResampleMean(deltas: seq<real>, draw: seq<nat>): real
    requires deltas != [] && ValidDraw(draw, |deltas|)
  {
    DrawnSum(deltas, draw, |draw|) / |deltas| as real
  }

  function Means(deltas: seq<real>, draws: seq<seq<nat>>): (m: seq<real>)
    requires deltas != [] && ValidDraws(draws, |deltas|)
    ensures |m| == |draws| && forall r :: 0 <= r < |m| ==> m[r] == ResampleMean(deltas, draws[r])
  {
    seq(|draws|, r requires 0 <= r < |draws| => ResampleMean(deltas, draws[r]))
  }

  datatype Interval =
    | LengthMismatch
    | EmptyInput
    | NoResamples
    | Ci(lo: real, hi: real)

  /** The interval before rounding, as a function of the generator's draws. */
  function BootstrapCi(base: seq<real>, ft: seq<real>, draws: seq<seq<nat>>, ci: real): Interval
    requires 0.0 <= ci <= 1.0
    requires |base| == |ft| ==> ValidDraws(draws, |base|)
  {
    if |base| != |ft| then LengthMismatch
    else if base == [] then EmptyInput
    else if draws == [] then NoResamples
    else
      CiOfMeans(Means(Deltas(base, ft), draws), ci)
  }

  function CiOfMeans(means: seq<real>, ci: real): Interval
    requires means != [] && 0.0 <= ci <= 1.0
  {
    Between(Sort(means), (1.0 - ci) / 2.0)
  }

  /** The interval between two complementary percentiles. */
  function Between(sorted: seq<real>, loQ: real): Interval
    requires sorted != [] && 0.0 <= loQ <= 1.0
  {
    Ci(Percentile(sorted, loQ), Percentile(sorted, 1.0 - loQ))
  }

  /** Both ends to four decimals. */
  function Rounded(r: Interval): Interval { if r.Ci? then Ci(Round4(r.lo), Round4(r.hi)) else r }

  /** The interval as it is reported. */
  function ReportedCi(base: seq<real>, ft: seq<real>, draws: seq<seq<nat>>, ci: real): Interval
    requires 0.0 <= ci <= 1.0
    requires |base| == |ft| ==> ValidDraws(draws, |base|)
  {
    Rounded(BootstrapCi(base, ft, draws, ci))
  }

  /** One resample: the mean of the drawn deltas. */
  method Resample(deltas: seq<real>, draw: seq<nat>) returns (mean: real)
    requires deltas != [] && ValidDraw(draw, |deltas|)
    ensures mean == ResampleMean(deltas, draw)
  {
    var s := 0.0;
    for k := 0 to |deltas|
      invariant s == DrawnSum(deltas, draw, k)
    {
      s := s + deltas[draw[k]];
    }
    mean := s / |deltas| as real;
  }

  /** The two rounded percentiles of the sorted means. */
  method Ends(means: seq<real>, ci: real) returns (r: Interval)
    requires means != [] && 0.0 <= ci <= 1.0
    ensures r == Rounded(CiOfMeans(means, ci))
  {
    var sorted := Sort(means);
    var loQ := (1.0 - ci) / 2.0;
    var hiQ := 1.0 - loQ;
    r := Ci(Round4(Percentile(sorted, loQ)), Round4(Percentile(sorted, hiQ)));
  }

  method PairedBootstrapCi(base: seq<real>, ft: seq<real>, draws: seq<seq<nat>>, ci: real)
    returns (r: Interval)
    requires 0.0 <= ci <= 1.0
    requires |base| == |ft| ==> ValidDraws(draws, |base|)
    ensures r == ReportedCi(base, ft, draws, ci)
  {
    if |base| != |ft| {
      return LengthMismatch;
    }
    var n := |base|;
    if n == 0 {
      return EmptyInput;
    }
    var deltas := Deltas(base, ft);
    var means := [];
    for i := 0 to |draws|
      invariant |means| == i
      invariant forall r :: 0 <= r < i ==> means[r] == ResampleMean(deltas, draws[r])
    {
      var mean := Resample(deltas, draws[i]);
      means := means + [mean];
    }
    if means == [] {
      return NoResamples;
    }
    assert means == Means(deltas, draws);
    r := Ends(means, ci);
  }

  function Drawn(deltas: seq<real>): nat -> real { (i: nat) => if i < |deltas| then deltas[i] else 0.0 }

  /** A resample's mean is the sum of the drawn deltas over their number. */
  lemma MeanExactly(deltas: seq<real>, draw: seq<nat>)
    requires deltas != [] && ValidDraw(draw, |deltas|)
    ensures ResampleMean(deltas, draw) * |deltas| as real == SumMap(draw, Drawn(deltas))
  {
    DrawnSumIsSum(deltas, draw, |draw|);
    assert draw[..|draw|] == draw;
    Quotient(DrawnSum(deltas, draw, |draw|), |deltas| as real);
  }

  lemma {:induction false} DrawnSumIsSum(deltas: seq<real>, draw: seq<nat>, upTo: nat)
    requires upTo <= |draw| && forall k :: 0 <= k < |draw| ==> draw[k] < |deltas|
    ensures DrawnSum(deltas, draw, upTo) == SumMap(draw[..upTo], Drawn(deltas))
  {
    if upTo > 0 {
      DrawnSumIsSum(deltas, draw, upTo - 1);
      assert draw[..upTo] == draw[..upTo - 1] + [draw[upTo - 1]];
      SumMapConcat(draw[..upTo - 1], [draw[upTo - 1]], Drawn(deltas));
      assert SumMap([draw[upTo - 1]], Drawn(deltas)) == deltas[draw[upTo - 1]] + SumMap<nat>([], Drawn(deltas));
    }
  }

  // ---- what holds for every draw ---------------------------------------------------------------

  ghost predicate Within(s: seq<real>, a: real, b: real) {
    forall i :: 0 <= i < |s| ==> a <= s[i] <= b
  }

  lemma OneMoreTerm(m: real, sum: real, d: real, a: real, b: real)
    requires (m - 1.0) * a <= sum <= (m - 1.0) * b && a <= d <= b
    ensures m * a <= sum + d <= m * b
  {
    OneFewer(m, a);
    OneFewer(m, b);
  }

  lemma OneFewer(m: real, a: real)
    ensures (m - 1.0) * a == m * a - a
  {
  }

  lemma {:induction false} DrawnSumBounds(deltas: seq<real>, draw: seq<nat>, upTo: nat, m: real, a: real, b: real)
    requires upTo <= |draw| && forall k :: 0 <= k < |draw| ==> draw[k] < |deltas|
    requires Within(deltas, a, b) && m == upTo as real
    ensures m * a <= DrawnSum(deltas, draw, upTo) <= m * b
  {
    if upTo > 0 {
      DrawnSumBounds(deltas, draw, upTo - 1, m - 1.0, a, b);
      var d := deltas[draw[upTo - 1]];
      OneMoreTerm(m, DrawnSum(deltas, draw, upTo - 1), d, a, b);
    }
  }

  lemma Quotient(sum: real, n: real)
    requires n > 0.0
    ensures n * (sum / n) == sum
  {
  }

  lemma Positive(d: real, n: real)
    requires n > 0.0
    ensures d > 0.0 ==> n * d > 0.0
  {
  }

  lemma MeansWithin(deltas: seq<real>, draws: seq<seq<nat>>, a: real, b: real)
    requires deltas != [] && ValidDraws(draws, |deltas|) && Within(deltas, a, b)
    ensures Within(Means(deltas, draws), a, b)
  {
    var n := |deltas|;
    forall r | 0 <= r < |draws| ensures a <= Means(deltas, draws)[r] <= b {
      assert ValidDraw(draws[r], n);
      DrawnSumBounds(deltas, draws[r], n, n as real, a, b);
      var sum, m := DrawnSum(deltas, draws[r], n), n as real;
      Quotient(sum, m);
      Positive(a - sum / m, m);
      Positive(sum / m - b, m);
    }
  }

  lemma SortedWithin(s: seq<real>, a: real, b: real)
    requires Within(s, a, b)
    ensures Within(Sort(s), a, b)
  {
    var t := Sort(s);
    forall i | 0 <= i < |t| ensures a <= t[i] <= b {
      assert t[i] in multiset(s);
    }
  }

  lemma RoundedBetween(r: Interval, a: real, b: real)
    requires r.Ci? && a <= r.lo <= r.hi <= b
    ensures Round4(a) <= Rounded(r).lo <= Rounded(r).hi <= Round4(b)
  {
    RoundingLaws(a, r.lo);
    RoundingLaws(r.lo, r.hi);
    RoundingLaws(r.hi, b);
  }

  /** Whatever is drawn, the interval is ordered and stays within the range of the paired deltas. */
  lemma IntervalWithinDeltas(base: seq<real>, ft: seq<real>, draws: seq<seq<nat>>, ci: real, a: real, b: real)
    requires 0.0 <= ci <= 1.0 && |base| == |ft| && base != [] && draws != []
    requires ValidDraws(draws, |base|)
    requires Within(Deltas(base, ft), a, b)
    ensures var r := BootstrapCi(base, ft, draws, ci); r.Ci? && a <= r.lo <= r.hi <= b
    ensures var r := ReportedCi(base, ft, draws, ci); r.Ci? && Round4(a) <= r.lo <= r.hi <= Round4(b)
  {
    hide BootstrapCi, Round4;
    UnroundedWithin(base, ft, draws, ci, a, b);
    RoundedBetween(BootstrapCi(base, ft, draws, ci), a, b);
  }

  lemma UnroundedWithin(base: seq<real>, ft: seq<real>, draws: seq<seq<nat>>, ci: real, a: real, b: real)
    requires 0.0 <= ci <= 1.0 && |base| == |ft| && base != [] && draws != []
    requires ValidDraws(draws, |base|)
    requires Within(Deltas(base, ft), a, b)
    ensures var r := BootstrapCi(base, ft, draws, ci); r.Ci? && a <= r.lo <= r.hi <= b
  {
    hide Sort, Percentile;
    var deltas := Deltas(base, ft);
    var means := Sort(Means(deltas, draws));
    MeansWithin(deltas, draws, a, b);
    SortedWithin(Means(deltas, draws), a, b);
    PercentileMonotone(means, (1.0 - ci) / 2.0, 1.0 - (1.0 - ci) / 2.0);
  }

  /** `significant` in the report, of the reported interval: it excludes zero. */
  predicate Significant(r: Interval) { r.Ci? && !(r.lo <= 0.0 <= r.hi) }

  /** A change is reported as significant exactly when the interval before rounding stays more than half a
      digit away from zero. */
  lemma SignificantExactly(base: seq<real>, ft: seq<real>, draws: seq<seq<nat>>, ci: real)
    requires 0.0 <= ci <= 1.0 && |base| == |ft| && base != [] && draws != []
    requires ValidDraws(draws, |base|)
    ensures var r := BootstrapCi(base, ft, draws, ci);
            r.Ci? && (Significant(ReportedCi(base, ft, draws, ci)) <==> r.lo > 0.00005 || r.hi < -0.00005)
  {
    var r := BootstrapCi(base, ft, draws, ci);
    SignAfterRounding(r.lo);
    SignAfterRounding(r.hi);
  }

  /** The extreme deltas bound the interval before rounding. */
  lemma ExtremesBound(base: seq<real>, ft: seq<real>, draws: seq<seq<nat>>, ci: real) returns (a: real, b: real)
    requires 0.0 <= ci <= 1.0 && |base| == |ft| && base != [] && draws != []
    requires ValidDraws(draws, |base|)
    ensures a in Deltas(base, ft) && b in Deltas(base, ft)
    ensures var r := BootstrapCi(base, ft, draws, ci); r.Ci? && a <= r.lo <= r.hi <= b
  {
    var sorted := Sort(Deltas(base, ft));
    a, b := sorted[0], sorted[|sorted| - 1];
    forall i | 0 <= i < |base| ensures a <= Deltas(base, ft)[i] <= b {
      assert Deltas(base, ft)[i] in multiset(sorted);
    }
    assert a in multiset(Deltas(base, ft)) && b in multiset(Deltas(base, ft));
    IntervalWithinDeltas(base, ft, draws, ci, a, b);
  }

  /** Every pair improves, or every pair worsens, by more than half a digit. */
  predicate ClearlyOneSigned(base: seq<real>, ft: seq<real>)
    requires |base| == |ft|
  {
    || (forall i :: 0 <= i < |base| ==> ft[i] - base[i] > 0.00005)
    || (forall i :: 0 <= i < |base| ==> ft[i] - base[i] < -0.00005)
  }

  /** If every pair improves (or every pair worsens) the interval before rounding excludes zero. */
  lemma OneSidedDeltasExcludeZero(base: seq<real>, ft: seq<real>, draws: seq<seq<nat>>, ci: real)
    requires 0.0 <= ci <= 1.0 && |base| == |ft| && base != [] && draws != []
    requires ValidDraws(draws, |base|)
    requires (forall i :: 0 <= i < |base| ==> base[i] < ft[i]) || (forall i :: 0 <= i < |base| ==> ft[i] < base[i])
    ensures Significant(BootstrapCi(base, ft, draws, ci))
  {
    var a, b := ExtremesBound(base, ft, draws, ci);
  }

  /** If every pair improves (or every pair worsens) by more than half a digit, the change is reported as
      significant. */
  lemma ClearOneSidedDeltasAreSignificant(base: seq<real>, ft: seq<real>, draws: seq<seq<nat>>, ci: real)
    requires 0.0 <= ci <= 1.0 && |base| == |ft| && base != [] && draws != []
    requires ValidDraws(draws, |base|)
    requires ClearlyOneSigned(base, ft)
    ensures Significant(ReportedCi(base, ft, draws, ci))
  {
    var a, b := ExtremesBound(base, ft, draws, ci);
    SignificantExactly(base, ft, draws, ci);
  }

  // ---- which data is significant whatever is drawn -----------------------------------------------

  /** Draws the same pair every time. */
  function Repeat(n: nat, i: nat): (d: seq<nat>)
    ensures |d| == n && forall k :: 0 <= k < n ==> d[k] == i
    ensures i < n ==> ValidDraw(d, n)
  {
    seq(n, k => i)
  }

  /** The first k resamples draw pair i alone, the others pair j alone. */
  function TwoBlocks(n: nat, resamples: nat, k: nat, i: nat, j: nat): (d: seq<seq<nat>>)
    requires i < n && j < n
    ensures |d| == resamples && ValidDraws(d, n)
    ensures forall r :: 0 <= r < resamples ==> d[r] == if r < k then Repeat(n, i) else Repeat(n, j)
  {
    var first, second := Repeat(n, i), Repeat(n, j);
    seq(resamples, r => if r < k then first else second)
  }

  function TwoValues(resamples: nat, k: nat, a: real, b: real): (s: seq<real>)
    requires a <= b
    ensures |s| == resamples && Ascending(s)
    ensures forall r :: 0 <= r < resamples ==> s[r] == if r < k then a else b
  {
    seq(resamples, r => if r < k then a else b)
  }

  lemma {:induction false} RepeatedSum(deltas: seq<real>, n: nat, i: nat, upTo: nat)
    requires i < |deltas| && upTo <= n
    ensures DrawnSum(deltas, Repeat(n, i), upTo) == upTo as real * deltas[i]
  {
    if upTo > 0 {
      RepeatedSum(deltas, n, i, upTo - 1);
      OneFewer(upTo as real, deltas[i]);
    }
  }

  lemma RepeatedMean(deltas: seq<real>, i: nat)
    requires i < |deltas|
    ensures ResampleMean(deltas, Repeat(|deltas|, i)) == deltas[i]
  {
    var n := |deltas| as real;
    RepeatedSum(deltas, |deltas|, i, |deltas|);
    assert n * deltas[i] / n == deltas[i];
  }

  lemma BlockMeans(deltas: seq<real>, resamples: nat, k: nat, i: nat, j: nat)
    requires i < |deltas| && j < |deltas| && deltas[i] <= deltas[j]
    ensures Means(deltas, TwoBlocks(|deltas|, resamples, k, i, j)) == TwoValues(resamples, k, deltas[i], deltas[j])
  {
    RepeatedMean(deltas, i);
    RepeatedMean(deltas, j);
  }

  /** Block length k keeps the two ends of the interval in different blocks. */
  predicate Separates(resamples: nat, k: nat, q: real) {
    Ceil(Position(resamples, q)) < k <= Position(resamples, 1.0 - q).Floor
  }

  lemma ValuesBetween(resamples: nat, k: nat, a: real, b: real, q: real)
    requires resamples > 0 && a <= b && 0.0 <= q <= 1.0 && (a == b || Separates(resamples, k, q))
    ensures Between(TwoValues(resamples, k, a, b), q) == Ci(a, b)
  {
    hide Percentile, Position;
    var s := TwoValues(resamples, k, a, b);
    PercentileInSegment(s, q);
    PercentileInSegment(s, 1.0 - q);
    PositionInRange(resamples, q);
    PositionInRange(resamples, 1.0 - q);
  }

  /** With the ends in different blocks, or one pair drawn throughout, the interval spans the two deltas. */
  lemma BlockEnds(base: seq<real>, ft: seq<real>, resamples: nat, k: nat, i: nat, j: nat, ci: real)
    requires 0.0 <= ci <= 1.0 && |base| == |ft| && i < |base| && j < |base| && resamples > 0
    requires Deltas(base, ft)[i] <= Deltas(base, ft)[j]
    requires i == j || Separates(resamples, k, (1.0 - ci) / 2.0)
    ensures BootstrapCi(base, ft, TwoBlocks(|base|, resamples, k, i, j), ci)
         == Ci(Deltas(base, ft)[i], Deltas(base, ft)[j])
  {
    hide Separates, Between, Sort;
    var deltas := Deltas(base, ft);
    var s := TwoValues(resamples, k, deltas[i], deltas[j]);
    BlockMeans(deltas, resamples, k, i, j);
    AscendingUnique(Sort(s), s);
    ValuesBetween(resamples, k, deltas[i], deltas[j], (1.0 - ci) / 2.0);
  }

  /** With enough resamples some block length separates the two ends. */
  lemma SplitBetweenEnds(resamples: nat, ci: real) returns (k: nat)
    requires 0.0 <= ci <= 1.0 && (resamples - 1) as real * ci >= 2.0
    ensures Separates(resamples, k, (1.0 - ci) / 2.0)
  {
    var q, m := (1.0 - ci) / 2.0, (resamples - 1) as real;
    PositionInRange(resamples, q);
    assert (1.0 - q) * m - q * m == ci * m;
    k := Ceil(Position(resamples, q)) + 1;
  }

  /** Reported as significant whatever is drawn for the given number of resamples. */
  ghost predicate AlwaysSignificant(base: seq<real>, ft: seq<real>, resamples: nat, ci: real)
    requires 0.0 <= ci <= 1.0 && |base| == |ft|
  {
    forall draws: seq<seq<nat>> :: |draws| == resamples && ValidDraws(draws, |base|) ==>
      Significant(ReportedCi(base, ft, draws, ci))
  }

  /** Draws under which the change is not reported, for data that is not clearly one-signed. */
  lemma UnreportedDraws(base: seq<real>, ft: seq<real>, resamples: nat, ci: real) returns (draws: seq<seq<nat>>)
    requires 0.0 <= ci <= 1.0 && |base| == |ft| && base != [] && resamples > 0
    requires || (forall i :: 0 <= i < |base| ==> base[i] < ft[i])
             || (forall i :: 0 <= i < |base| ==> ft[i] < base[i])
             || (resamples - 1) as real * ci >= 2.0
    requires !ClearlyOneSigned(base, ft)
    ensures |draws| == resamples && ValidDraws(draws, |base|) && !Significant(ReportedCi(base, ft, draws, ci))
  {
    var i :| 0 <= i < |base| && ft[i] - base[i] <= 0.00005;
    var j :| 0 <= j < |base| && ft[j] - base[j] >= -0.00005;
    var k := 0;
    if ft[i] - base[i] >= -0.00005 {
      j := i;
    } else if ft[j] - base[j] <= 0.00005 {
      i := j;
    } else {
      k := SplitBetweenEnds(resamples, ci);
    }
    BlockEnds(base, ft, resamples, k, i, j, ci);
    draws := TwoBlocks(|base|, resamples, k, i, j);
    SignificantExactly(base, ft, draws, ci);
  }

  /** A change is reported as significant whatever is drawn exactly when every pair changes in the same
      direction by more than half a digit: for one-signed data with any number of resamples, for any data
      with enough of them. */
  lemma AlwaysSignificantExactly(base: seq<real>, ft: seq<real>, resamples: nat, ci: real)
    requires 0.0 <= ci <= 1.0 && |base| == |ft| && base != [] && resamples > 0
    requires || (forall i :: 0 <= i < |base| ==> base[i] < ft[i])
             || (forall i :: 0 <= i < |base| ==> ft[i] < base[i])
             || (resamples - 1) as real * ci >= 2.0
    ensures AlwaysSignificant(base, ft, resamples, ci) <==> ClearlyOneSigned(base, ft)
  {
    if ClearlyOneSigned(base, ft) {
      forall draws: seq<seq<nat>> | |draws| == resamples && ValidDraws(draws, |base|)
        ensures Significant(ReportedCi(base, ft, draws, ci))
      {
        ClearOneSidedDeltasAreSignificant(base, ft, draws, ci);
      }
    } else {
      var draws := UnreportedDraws(base, ft, resamples, ci);
    }
  }

  /** A smaller gain goes unreported although every pair improves: rounding swallows it. */
  lemma SmallGainGoesUnreported(ci: real)
    requires 0.0 <= ci <= 1.0
    ensures var base, ft, draws := [0.0], [0.00004], [[0]];
            && ValidDraws(draws, 1) && base[0] < ft[0]
            && Significant(BootstrapCi(base, ft, draws, ci))
            && ReportedCi(base, ft, draws, ci) == Ci(0.0, 0.0)
            && !Significant(ReportedCi(base, ft, draws, ci))
  {
    var base, ft, draws := [0.0], [0.00004], [[0]];
    assert ValidDraw(draws[0], 1);
    assert Deltas(base, ft) == [0.00004];
    IntervalWithinDeltas(base, ft, draws, ci, 0.00004, 0.00004);
    assert Nearest(0.4) == 0;
  }

  lemma {:induction false} DrawnSumNegates(d: seq<real>, e: seq<real>, draw: seq<nat>, upTo: nat)
    requires |d| == |e| && forall i :: 0 <= i < |d| ==> e[i] == -d[i]
    requires upTo <= |draw| && forall k :: 0 <= k < |draw| ==> draw[k] < |d|
    ensures DrawnSum(e, draw, upTo) == -DrawnSum(d, draw, upTo)
  {
    if upTo > 0 {
      DrawnSumNegates(d, e, draw, upTo - 1);
    }
  }

  function Negate(s: seq<real>): (r: seq<real>)
    ensures |r| == |s| && forall i :: 0 <= i < |s| ==> r[i] == -s[i]
  {
    seq(|s|, i requires 0 <= i < |s| => -s[i])
  }

  lemma {:induction false} NegatePermutation(a: seq<real>, b: seq<real>)
    requires multiset(a) == multiset(b)
    ensures multiset(Negate(a)) == multiset(Negate(b))
    decreases |a|
  {
    if a == [] {
      assert |multiset(b)| == 0;
    } else {
      var j := MatchFirst(a, b);
      NegateWithout(a, 0);
      NegateWithout(b, j);
      NegatePermutation(Without(a, 0), Without(b, j));
    }
  }

  lemma NegateConcat(a: seq<real>, b: seq<real>)
    ensures Negate(a + b) == Negate(a) + Negate(b)
  {
  }

  lemma NegateAround(a: seq<real>, x: real, b: seq<real>)
    ensures multiset(Negate(a + ([x] + b))) == multiset(Negate(a + b)) + multiset{-x}
  {
    NegateConcat(a, [x] + b);
    NegateConcat([x], b);
    NegateConcat(a, b);
    assert Negate([x]) == [-x];
  }

  lemma NegateWithout(s: seq<real>, j: nat)
    requires j < |s|
    ensures multiset(Negate(s)) == multiset(Negate(Without(s, j))) + multiset{-s[j]}
  {
    Around(s, j);
    NegateAround(s[..j], s[j], s[j + 1..]);
  }

  lemma {:induction false} ReverseKeepsElements(s: seq<real>)
    ensures multiset(NegateReversed(s)) == multiset(Negate(s))
  {
    if s != [] {
      ReverseKeepsElements(s[1..]);
      assert NegateReversed(s) == NegateReversed(s[1..]) + [-s[0]];
      assert Negate(s) == [-s[0]] + Negate(s[1..]);
    } else {
      assert NegateReversed(s) == Negate(s);
    }
  }

  lemma SortNegated(s: seq<real>)
    ensures Sort(Negate(s)) == NegateReversed(Sort(s))
  {
    ReverseKeepsElements(Sort(s));
    NegatePermutation(s, Sort(s));
    AscendingUnique(Sort(Negate(s)), NegateReversed(Sort(s)));
  }

  lemma MeansNegate(base: seq<real>, ft: seq<real>, draws: seq<seq<nat>>)
    requires |base| == |ft| && base != [] && ValidDraws(draws, |base|)
    ensures Means(Deltas(ft, base), draws) == Negate(Means(Deltas(base, ft), draws))
  {
    var d, e := Deltas(base, ft), Deltas(ft, base);
    forall r | 0 <= r < |draws| ensures ResampleMean(e, draws[r]) == -ResampleMean(d, draws[r]) {
      assert ValidDraw(draws[r], |base|);
      DrawnSumNegates(d, e, draws[r], |draws[r]|);
      NegatedQuotient(DrawnSum(d, draws[r], |draws[r]|), |d| as real);
    }
  }

  lemma NegatedQuotient(x: real, n: real)
    requires n > 0.0
    ensures (-x) / n == -(x / n)
  {
  }

  /** With the same draws, swapping the samples mirrors the interval about zero, before and after
      rounding, so the reported verdict is the same. */
  lemma SwapMirrorsInterval(base: seq<real>, ft: seq<real>, draws: seq<seq<nat>>, ci: real)
    requires 0.0 <= ci <= 1.0 && |base| == |ft| && base != [] && draws != []
    requires ValidDraws(draws, |base|)
    ensures Mirrors(BootstrapCi(base, ft, draws, ci), BootstrapCi(ft, base, draws, ci))
    ensures Mirrors(ReportedCi(base, ft, draws, ci), ReportedCi(ft, base, draws, ci))
    ensures Significant(ReportedCi(base, ft, draws, ci)) <==> Significant(ReportedCi(ft, base, draws, ci))
  {
    MeansNegate(base, ft, draws);
    MirroredCi(Means(Deltas(base, ft), draws), ci);
    MirrorRounds(BootstrapCi(base, ft, draws, ci), BootstrapCi(ft, base, draws, ci));
  }

  predicate Mirrors(r: Interval, s: Interval) { r.Ci? && s.Ci? && s.lo == -r.hi && s.hi == -r.lo }

  lemma MirrorRounds(r: Interval, s: Interval)
    requires Mirrors(r, s)
    ensures Mirrors(Rounded(r), Rounded(s)) && (Significant(Rounded(r)) <==> Significant(Rounded(s)))
  {
    RoundingLaws(r.lo, r.lo);
    RoundingLaws(r.hi, r.hi);
  }

  lemma MirroredCi(means: seq<real>, ci: real)
    requires means != [] && 0.0 <= ci <= 1.0
    ensures Mirrors(CiOfMeans(means, ci), CiOfMeans(Negate(means), ci))
  {
    SortNegated(means);
    MirroredPair(Sort(means), (1.0 - ci) / 2.0);
  }

  lemma MirroredPair(s: seq<real>, p: real)
    requires s != [] && 0.0 <= p <= 1.0
    ensures Mirrors(Between(s, p), Between(NegateReversed(s), p))
  {
    PercentileMirror(s, p);
    PercentileMirror(s, 1.0 - p);
    assert 1.0 - (1.0 - p) == p;
  }
}
