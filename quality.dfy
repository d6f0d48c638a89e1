/**
 * `_calc_quality_score` (src/data_cleaner.py:152-160): 100 minus the
 * percentage of missing cells minus the percentage of duplicated rows,
 * floored at 0.
 *
 * A table without rows or without columns divides 0 by 0; numpy gives NaN,
 * and Python's `max(0, nan)` returns 0.
 */
module Quality {
  import opened Tables
  import opened Duplicates

  /** A percentage `100 * part / whole` is never negative, and is zero
      exactly when `part` is. */
  lemma PercentageSign(part: nat, whole: nat)
    requires 0 < whole
    ensures 100.0 * part as real / whole as real >= 0.0
    ensures 100.0 * part as real / whole as real == 0.0 <==> part == 0
    ensures part == whole ==> 100.0 * part as real / whole as real == 100.0
  {
    var p, w := part as real, whole as real;
    var r := 100.0 * p / w;
    assert r * w == 100.0 * p;
    if part == 0 {
      assert r == 0.0;
    } else {
      assert 100.0 * p > 0.0;
      assert r > 0.0;
    }
    if part == whole {
      assert r * w == 100.0 * w;
    }
  }

  function QualityScore(t: Table): (q: real)
    ensures 0.0 <= q <= 100.0
    ensures t.height > 0 && |t.columns| > 0 ==>
              (q == 100.0 <==> TotalNulls(t.columns) == 0 && DuplicatedRows(t) == 0)
    ensures t.height == 0 || |t.columns| == 0 ==> q == 0.0
    ensures t.height > 0 && |t.columns| > 0 && TotalNulls(t.columns) == t.height * |t.columns| ==> q == 0.0
  {
    var h, w := t.height, |t.columns|;
    if h == 0 || w == 0 then 0.0
    else
      PercentageSign(TotalNulls(t.columns), h * w);
      PercentageSign(DuplicatedRows(t), h);
      var missingPenalty := 100.0 * TotalNulls(t.columns) as real / (h * w) as real;
      var dupePenalty := 100.0 * DuplicatedRows(t) as real / h as real;
      var quality := 100.0 - missingPenalty - dupePenalty;
      if quality < 0.0 then 0.0 else quality
  }
}
