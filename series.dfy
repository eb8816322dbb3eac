/** The numeric steps between the weekly case tables and the simulator
    inputs (scripts/format_for_DTK.py): the 0-fill and negative clamp of the
    combined table, the daily totals and running totals, and the logarithmic
    transform with its shift. */
module Series {
  import opened Common

  /** fillna(0): a cell the column alignment left empty counts as zero. */
  function Filled(x: Option<real>): real
  {
    match x
    case None => 0.0
    case Some(v) => v
  }

  /** all_counts[all_counts<0] = 0 on one cell. */
  function Clamped(x: real): (r: real)
    ensures r >= 0.0
    ensures x >= 0.0 ==> r == x
    ensures x < 0.0 ==> r == 0.0
  {
    if x < 0.0 then 0.0 else x
  }

  /** get_all_counts after the alignment: the aligned table with missing
      cells filled with 0, then every negative cell set to 0 in place.  No
      cell of the result is negative; a present non-negative count is kept. */
  method CombineCounts(aligned: array2<Option<real>>) returns (counts: array2<real>)
    ensures fresh(counts)
    ensures counts.Length0 == aligned.Length0 && counts.Length1 == aligned.Length1
    ensures forall i, j :: 0 <= i < counts.Length0 && 0 <= j < counts.Length1 ==>
      counts[i, j] == Clamped(Filled(aligned[i, j]))
  {
    counts := new real[aligned.Length0, aligned.Length1]((i, j) reads aligned
      requires 0 <= i < aligned.Length0 && 0 <= j < aligned.Length1 => Filled(aligned[i, j]));
    ClampNegatives(counts);
  }

  /** all_counts[all_counts<0] = 0: the masked assignment, cell by cell. */
  method ClampNegatives(a: array2<real>)
    modifies a
    ensures forall i, j :: 0 <= i < a.Length0 && 0 <= j < a.Length1 ==> a[i, j] == Clamped(old(a[i, j]))
  {
    var i := 0;
    while i < a.Length0
      invariant 0 <= i <= a.Length0
      invariant forall r, c :: 0 <= r < i && 0 <= c < a.Length1 ==> a[r, c] == Clamped(old(a[r, c]))
      invariant forall r, c :: i <= r < a.Length0 && 0 <= c < a.Length1 ==> a[r, c] == old(a[r, c])
    {
      var j := 0;
      while j < a.Length1
        invariant 0 <= j <= a.Length1
        invariant forall r, c :: 0 <= r < i && 0 <= c < a.Length1 ==> a[r, c] == Clamped(old(a[r, c]))
        invariant forall c :: 0 <= c < j ==> a[i, c] == Clamped(old(a[i, c]))
        invariant forall c :: j <= c < a.Length1 ==> a[i, c] == old(a[i, c])
        invariant forall r, c :: i < r < a.Length0 && 0 <= c < a.Length1 ==> a[r, c] == old(a[r, c])
      {
        if a[i, j] < 0.0 {
          a[i, j] := 0.0;
        }
        j := j + 1;
      }
      i := i + 1;
    }
  }

  /** The combined counts are a table of non-negative numbers: every cell is
      0 or the present non-negative count. */
  lemma {:induction false} CombinedCellsNonNegative(x: Option<real>)
    ensures Clamped(Filled(x)) >= 0.0
    ensures Clamped(Filled(x)) == (if x.Some? && x.value >= 0.0 then x.value else 0.0)
  {
  }

  // ---------------------------------------------------------------- aggregate

  /** dfsum = smoothed.sum(axis=1): the total over the countries of each day. */
  function DailyTotals(frame: seq<seq<real>>): (r: seq<real>)
    ensures |r| == |frame|
    ensures forall i :: 0 <= i < |frame| ==> r[i] == SumReal(frame[i])
  {
    seq(|frame|, i requires 0 <= i < |frame| => SumReal(frame[i]))
  }

  /** dfsum.cumsum(): a running total carried from left to right. */
  function RunningTotals(s: seq<real>, carried: real): (r: seq<real>)
    ensures |r| == |s|
  {
    if s == [] then [] else [carried + s[0]] + RunningTotals(s[1..], carried + s[0])
  }

  function CumSum(s: seq<real>): (r: seq<real>)
    ensures |r| == |s|
  {
    RunningTotals(s, 0.0)
  }

  lemma {:induction false} SumRealSplit(a: seq<real>, b: seq<real>)
    ensures SumReal(a + b) == SumReal(a) + SumReal(b)
    decreases |b|
  {
    if b == [] {
      assert a + b == a;
    } else {
      var b' := b[..|b| - 1];
      assert (a + b)[..|a + b| - 1] == a + b';
      SumRealSplit(a, b');
    }
  }

  lemma {:induction false} RunningTotalsArePrefixSums(s: seq<real>, carried: real, i: int)
    requires 0 <= i < |s|
    ensures RunningTotals(s, carried)[i] == carried + SumReal(s[..i + 1])
    decreases |s|
  {
    if i == 0 {
      SumRealSingle(s[0]);
      assert s[..1] == [s[0]];
    } else {
      var t := s[1..];
      var c := carried + s[0];
      RunningTotalsArePrefixSums(t, c, i - 1);
      assert RunningTotals(s, carried)[i] == RunningTotals(t, c)[i - 1];
      assert s[..i + 1] == [s[0]] + t[..i];
      SumRealSplit([s[0]], t[..i]);
      SumRealSingle(s[0]);
    }
  }

  lemma {:induction false} SumRealSingle(x: real)
    ensures SumReal([x]) == x
  {
    assert [x][..0] == [];
  }

  /** CumulativeEbolaCases[i] is the sum of EbolaCases[0..i]. */
  lemma {:induction false} CumSumIsPrefixSum(s: seq<real>, i: int)
    requires 0 <= i < |s|
    ensures CumSum(s)[i] == SumReal(s[..i + 1])
  {
    RunningTotalsArePrefixSums(s, 0.0, i);
  }

  /** The running total recovers the daily totals: day i adds EbolaCases[i]. */
  lemma {:induction false} CumSumSteps(s: seq<real>, i: int)
    requires 0 < i < |s|
    ensures CumSum(s)[i] == CumSum(s)[i - 1] + s[i]
  {
    CumSumIsPrefixSum(s, i);
    CumSumIsPrefixSum(s, i - 1);
    assert s[..i + 1][..i] == s[..i];
  }

  /** With non-negative daily totals the running total never decreases. */
  lemma {:induction false} CumSumNonDecreasing(s: seq<real>, i: int, j: int)
    requires forall k :: 0 <= k < |s| ==> s[k] >= 0.0
    requires 0 <= i <= j < |s|
    ensures CumSum(s)[i] <= CumSum(s)[j]
    decreases j - i
  {
    if i < j {
      CumSumSteps(s, j);
      CumSumNonDecreasing(s, i, j - 1);
    }
  }

  /** aggregate: the EbolaCases column and the CumulativeEbolaCases column. */
  function Aggregate(smoothed: seq<seq<real>>): (r: (seq<real>, seq<real>))
    ensures |r.0| == |smoothed| && |r.1| == |smoothed|
  {
    var cases := DailyTotals(smoothed);
    (cases, CumSum(cases))
  }

  lemma {:induction false} SumRealNonNegative(s: seq<real>)
    requires forall k :: 0 <= k < |s| ==> s[k] >= 0.0
    ensures SumReal(s) >= 0.0
    decreases |s|
  {
    if s != [] {
      SumRealNonNegative(s[..|s| - 1]);
    }
  }

  /** The aggregated channels: EbolaCases[i] is day i's total over the
      countries, CumulativeEbolaCases[i] the total of days 0..i, and on a
      table of non-negative counts the cumulative channel never decreases. */
  lemma {:induction false} AggregateMeaning(smoothed: seq<seq<real>>, i: int)
    requires 0 <= i < |smoothed|
    ensures Aggregate(smoothed).0[i] == SumReal(smoothed[i])
    ensures Aggregate(smoothed).1[i] == SumReal(DailyTotals(smoothed)[..i + 1])
    ensures (forall d, c :: 0 <= d < |smoothed| && 0 <= c < |smoothed[d]| ==> smoothed[d][c] >= 0.0) ==>
              forall j :: 0 <= j <= i ==> Aggregate(smoothed).1[j] <= Aggregate(smoothed).1[i]
  {
    var cases := DailyTotals(smoothed);
    CumSumIsPrefixSum(cases, i);
    if forall d, c :: 0 <= d < |smoothed| && 0 <= c < |smoothed[d]| ==> smoothed[d][c] >= 0.0 {
      forall k | 0 <= k < |cases|
        ensures cases[k] >= 0.0
      {
        SumRealNonNegative(smoothed[k]);
      }
      forall j | 0 <= j <= i
        ensures CumSum(cases)[j] <= CumSum(cases)[i]
      {
        CumSumNonDecreasing(cases, j, i);
      }
    }
  }

  // ---------------------------------------------------------------- log transform and shift

  /** The value log_transform gives non-positive counts. */
  const Sentinel := -5.0

  /** log_transform on one cell; np.log10 is a parameter. */
  function LogTransform(log10: real -> real, x: real): real
  {
    if x > 0.0 then log10(x) else Sentinel
  }

  /** The shift lambda of the main script. */
  function Shift(x: real): real
  {
    if x > -1.2 then x + 1.2 else 0.0
  }

  /** The shifted value is never negative, is positive exactly when the input
      is above -1.2, and does not reorder inputs. */
  lemma {:induction false} ShiftProperties(x: real, y: real)
    ensures Shift(x) >= 0.0
    ensures Shift(x) > 0.0 <==> x > -1.2
    ensures x <= y ==> Shift(x) <= Shift(y)
  {
  }

  /** A day without cases (a non-positive smoothed count) becomes 0 after the
      transform and the shift, whatever log10 is. */
  lemma {:induction false} NoCasesShiftToZero(log10: real -> real, x: real)
    requires x <= 0.0
    ensures Shift(LogTransform(log10, x)) == 0.0
  {
  }

  /** transformed = log_transform(smoothed).applymap(shift), column by column. */
  function Transformed(log10: real -> real, column: seq<real>): (r: seq<real>)
    ensures |r| == |column|
    ensures forall t :: 0 <= t < |column| ==> r[t] >= 0.0
    ensures forall t :: 0 <= t < |column| && column[t] <= 0.0 ==> r[t] == 0.0
    ensures forall t :: 0 <= t < |column| && column[t] > 0.0 && log10(column[t]) > -1.2 ==>
      r[t] == log10(column[t]) + 1.2
    ensures forall t :: 0 <= t < |column| && column[t] > 0.0 && log10(column[t]) <= -1.2 ==> r[t] == 0.0
  {
    seq(|column|, t requires 0 <= t < |column| => Shift(LogTransform(log10, column[t])))
  }
}
