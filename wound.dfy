/**
 * The wound classifier `_getWoundLevel`: the coarse health bucket shown for
 * creatures that are not player characters.
 *
 * Hit points are whole numbers here; the percentage is computed on exact
 * reals, and the three IEEE outcomes of a division by zero are written out
 * (a positive numerator gives +Infinity, a negative one -Infinity, and 0/0
 * gives NaN).
 */
module Wound {
  import opened Wrappers

  /** `Math.round`: the nearest integer, a half rounded upwards. */
  function Round(x: real): (n: int)
    ensures n as real <= x + 0.5 < n as real + 1.0
  {
    (x + 0.5).Floor
  }

  /** `Math.max(Math.min(x, 100), 0)`. */
  function Clamp(x: real): (y: real)
    ensures 0.0 <= y <= 100.0
    ensures 0.0 <= x <= 100.0 ==> y == x
    ensures x > 100.0 ==> y == 100.0
    ensures x < 0.0 ==> y == 0.0
  {
    if x < 100.0 then (if x > 0.0 then x else 0.0) else 100.0
  }

  /**
   * `Math.round(Math.max(Math.min(100 * cur / max, 100), 0))`, with None
   * standing for NaN.
   */
  function Percent(cur: int, max: int): (p: Option<int>)
    ensures p.None? <==> cur == 0 && max == 0
    ensures p.Some? ==> 0 <= p.value <= 100
  {
    if max == 0 then
      if cur > 0 then Some(100)       // +Infinity clamps to 100
      else if cur < 0 then Some(0)    // -Infinity clamps to 0
      else None                       // 0 / 0 is NaN, and so is every step after it
    else
      Some(Round(Clamp(100.0 * cur as real / max as real)))
  }

  /** 0 healthy, 1 injured, 2 bloody, 3 defeated, -1 unknown. */
  function WoundLevel(cur: int, max: int): (level: int)
    ensures -1 <= level <= 3
    ensures level == -1 <==> cur == 0 && max == 0
  {
    match Percent(cur, max)
    case None => -1
    case Some(p) =>
      if p == 100 then 0
      else if p > 50 then 1
      else if p > 0 then 2
      else if p == 0 then 3
      else -1
  }

  /**
   * The bucket of a ratio `n / (200 * d)` with `d > 0`, as integer comparisons:
   * at least 99.5% is healthy, at least 50.5% injured, at least 0.5% bloody.
   */
  function Bucket(n: int, d: int): int
    requires d > 0
  {
    if n >= 199 * d then 0
    else if n >= 101 * d then 1
    else if n >= d then 2
    else 3
  }

  /** Comparing a quotient with a constant, without dividing. */
  lemma QuotientAtLeast(a: real, d: real, t: real)
    requires d != 0.0
    ensures d > 0.0 ==> (a / d >= t <==> a >= t * d)
    ensures d < 0.0 ==> (a / d >= t <==> a <= t * d)
  {
    var q := a / d;
    assert q * d == a;
    if d > 0.0 {
      if q >= t { assert q * d >= t * d; }
      if a >= t * d { assert (q - t) * d >= 0.0; }
    } else {
      if q >= t { assert (q - t) * d <= 0.0; }
      if a <= t * d { assert (q - t) * d <= 0.0; }
    }
  }

  /** The rounded percentage reaches a whole number `m` exactly when the ratio reaches m - 0.5. */
  lemma RoundClampAtLeast(x: real, m: int)
    requires 1 <= m <= 100
    ensures Round(Clamp(x)) >= m <==> x >= m as real - 0.5
  {
  }

  /**
   * Away from a zero maximum, the classifier is the integer bucket of
   * 200 * cur / max with both sides made positive: the thresholds are those
   * of rounding the percentage to 100, above 50 and above 0.
   */
  lemma WoundLevelThresholds(cur: int, max: int)
    requires max != 0
    ensures var s := if max > 0 then 1 else -1;
      WoundLevel(cur, max) == Bucket(200 * cur * s, max * s)
  {
    var x := 100.0 * cur as real / max as real;
    var s := if max > 0 then 1 else -1;
    var a := 100.0 * cur as real;
    QuotientAtLeast(a, max as real, 99.5);
    QuotientAtLeast(a, max as real, 50.5);
    QuotientAtLeast(a, max as real, 0.5);
    RoundClampAtLeast(x, 100);
    RoundClampAtLeast(x, 51);
    RoundClampAtLeast(x, 1);
    assert Percent(cur, max) == Some(Round(Clamp(x)));
  }

  /** With a zero maximum, the sign of the current hit points alone decides. */
  lemma WoundLevelZeroMax(cur: int)
    ensures WoundLevel(cur, 0) == if cur > 0 then 0 else if cur < 0 then 3 else -1
  {
  }

  /** The classifier's documented samples. */
  lemma WoundLevelSamples()
    ensures WoundLevel(100, 100) == 0
    ensures WoundLevel(51, 100) == 1
    ensures WoundLevel(50, 100) == 2
    ensures WoundLevel(1, 100) == 2
    ensures WoundLevel(0, 100) == 3
    ensures WoundLevel(5, 0) == 0
    ensures WoundLevel(0, 0) == -1
    // rounding reaches the end buckets before the hit points do
    ensures WoundLevel(199, 200) == 0
    ensures WoundLevel(1, 300) == 3
  {
    WoundLevelThresholds(199, 200);
    WoundLevelThresholds(1, 300);
    WoundLevelThresholds(100, 100);
    WoundLevelThresholds(51, 100);
    WoundLevelThresholds(50, 100);
    WoundLevelThresholds(1, 100);
    WoundLevelThresholds(0, 100);
  }
}
