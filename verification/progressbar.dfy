/**
  The progress shown while a batch runs: after each row, the share of the
  batch done so far as a whole percentage, `int((i + 1) / total * 100)`.
  The bar accepts only values from 0 to 100.
 */
module ProgressBar {

  lemma MulMonotone(a: nat, b: nat, c: nat)
    requires a <= b
    ensures a * c <= b * c
  {
  }

  /** `n / d` stays below `m` when `n` is below `m * d`. */
  lemma DivBelow(n: nat, d: nat, m: nat)
    requires d > 0 && n < m * d
    ensures n / d < m
  {
    var q := n / d;
    assert q * d <= n;
    if q >= m {
      MulMonotone(m, q, d);
    }
  }

  /** `n / d` reaches `m` when `n` is at least `m * d`. */
  lemma DivAtLeast(n: nat, d: nat, m: nat)
    requires d > 0 && m * d <= n
    ensures m <= n / d
  {
    var q := n / d;
    assert n == q * d + n % d && n % d < d;
    if q < m {
      MulMonotone(q + 1, m, d);
    }
  }

  lemma PercentBounds(k: nat, total: nat)
    requires 0 < k <= total
    ensures (k * 100) / total <= 100
    ensures (k * 100) / total == 100 <==> k == total
  {
    if k < total {
      DivBelow(k * 100, total, 100);
    } else {
      DivBelow(k * 100, total, 101);
      DivAtLeast(k * 100, total, 100);
    }
  }

  /**
    The progress after the row at `position` (counted from 0) of `total`:
    never past 100, and exactly 100 after the last row.
   */
  function ProgressPercent(position: nat, total: nat): (p: nat)
    requires position < total
    ensures p <= 100
    ensures p == 100 <==> position == total - 1
  {
    PercentBounds(position + 1, total);
    ((position + 1) * 100) / total
  }

  /**
    The progress as the program computes it, from the row's index label
    rather than its position. After rows were dropped from the table the
    labels have gaps, so a label can reach `total` or more.
   */
  function ProgressAsWritten(rowLabel: nat, total: nat): (p: nat)
    requires total > 0
    ensures rowLabel < total ==> p == ProgressPercent(rowLabel, total)
  {
    ((rowLabel + 1) * 100) / total
  }

  /** In a batch of at most 100 rows, a label at or past the row count drives the bar past 100. */
  lemma ProgressOverflow(rowLabel: nat, total: nat)
    requires 0 < total <= 100 && total <= rowLabel
    ensures ProgressAsWritten(rowLabel, total) > 100
  {
    MulMonotone(total + 1, rowLabel + 1, 100);
    assert (total + 1) * 100 == total * 100 + 100;
    assert 101 * total <= (rowLabel + 1) * 100;
    DivAtLeast((rowLabel + 1) * 100, total, 101);
  }

  /** The progress shown after each of the first `n` rows of `total`. */
  function ProgressTrail(n: nat, total: nat): (ps: seq<nat>)
    requires n <= total
    ensures |ps| == n
  {
    if n == 0 then [] else ProgressTrail(n - 1, total) + [ProgressPercent(n - 1, total)]
  }

  /** The bar never passes 100 and reaches it exactly at the last row. */
  lemma {:induction false} ProgressTrailBounded(n: nat, total: nat)
    requires n <= total
    ensures forall k :: 0 <= k < n ==> ProgressTrail(n, total)[k] == ProgressPercent(k, total) <= 100
    ensures forall k :: 0 <= k < n ==> (ProgressTrail(n, total)[k] == 100 <==> k == total - 1)
    decreases n
  {
    if n > 0 {
      ProgressTrailBounded(n - 1, total);
    }
  }
}
