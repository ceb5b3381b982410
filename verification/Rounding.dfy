/** Rounding to four decimals, ties to the even digit. */
module Rounding {

  /** The nearest integer, the even one in the middle. */
  function Nearest(y: real): int {
    var f := y.Floor;
    var d := y - f as real;
    if d < 0.5 || (d == 0.5 && f % 2 == 0) then f else f + 1
  }

  function Round4(x: real): real { Nearest(x * 10_000.0) as real / 10_000.0 }

  lemma NearestIsNear(y: real)
    ensures -0.5 <= Nearest(y) as real - y <= 0.5
    ensures Nearest(y) as real - y == 0.5 || Nearest(y) as real - y == -0.5 ==> Nearest(y) % 2 == 0
  {
  }

  /** Only one integer is that near. */
  lemma NearestUnique(y: real, n: int)
    requires -0.5 <= n as real - y <= 0.5
    requires n as real - y == 0.5 || n as real - y == -0.5 ==> n % 2 == 0
    ensures Nearest(y) == n
  {
    NearestIsNear(y);
    var m := Nearest(y);
    assert -1.0 <= m as real - n as real <= 1.0;
  }

  lemma NearestOdd(y: real)
    ensures Nearest(-y) == -Nearest(y)
  {
    NearestIsNear(y);
    NearestUnique(-y, -Nearest(y));
  }

  lemma NearestMonotone(y: real, z: real)
    requires y <= z
    ensures Nearest(y) <= Nearest(z)
  {
    NearestIsNear(y);
    NearestIsNear(z);
  }

  lemma NearestOfInt(n: int)
    ensures Nearest(n as real) == n
  {
  }

  /** Rounding keeps the order, commutes with negation, and moves a value by at most half a digit. */
  lemma RoundingLaws(x: real, y: real)
    ensures Round4(-x) == -Round4(x)
    ensures x <= y ==> Round4(x) <= Round4(y)
    ensures -0.00005 <= Round4(x) - x <= 0.00005
    ensures Round4(0.0) == 0.0 && Round4(1.0) == 1.0
  {
    NearestOdd(x * 10_000.0);
    assert (-x) * 10_000.0 == -(x * 10_000.0);
    if x <= y { NearestMonotone(x * 10_000.0, y * 10_000.0); }
    NearestIsNear(x * 10_000.0);
    NearestOfInt(0);
    NearestOfInt(10_000);
  }

  /** A value is reported as positive exactly when it exceeds half a digit, and dually. */
  lemma SignAfterRounding(x: real)
    ensures Round4(x) > 0.0 <==> x > 0.00005
    ensures Round4(x) < 0.0 <==> x < -0.00005
  {
    NearestIsNear(x * 10_000.0);
  }

  /** A value is reported as 1 exactly from half a digit below, for values of at most 1. */
  lemma OneAfterRounding(x: real)
    requires x <= 1.0
    ensures Round4(x) == 1.0 <==> x >= 0.99995
  {
    NearestIsNear(x * 10_000.0);
    RoundingLaws(x, 1.0);
  }
}
