/** The IQR outlier detector of the outlier page: thresholds from the 15th
    and 85th percentiles of the present amounts, a row mask comparing each
    amount with them, and the rows the mask keeps. */
module Outliers {
  import opened Wrappers
  import opened Seqs
  import opened Dataset
  import opened Quantiles

  /** The lower and upper percentile levels. They are 0.15 and 0.85, not the
      textbook quartiles 0.25 and 0.75. */
  const LowLevel: real := 0.15
  const HighLevel: real := 0.85

  /** `iqr` is the spread between the two percentiles; `upper` and `lower`
      lie `k` spreads beyond them. */
  datatype Thresholds = Thresholds(q1: real, q3: real, iqr: real, upper: real, lower: real)

  /** The thresholds `k` spreads beyond the percentiles `q1` and `q3`; for
      ordered percentiles and a non-negative `k` they bracket both. */
  function Derive(q1: real, q3: real, k: real): (t: Thresholds)
    ensures t.q1 == q1 && t.q3 == q3
    ensures t.iqr == t.q3 - t.q1
    ensures t.upper - t.q3 == t.q1 - t.lower
    ensures q1 <= q3 && 0.0 <= k ==> t.lower <= q1 <= q3 <= t.upper
  {
    var iqr := q3 - q1;
    assert q1 <= q3 && 0.0 <= k ==> 0.0 <= k * iqr by {
      if q1 <= q3 && 0.0 <= k {
        ScaleMonotone(iqr, 0.0, k);
      }
    }
    Thresholds(q1, q3, iqr, q3 + k * iqr, q1 - k * iqr)
  }

  /** The thresholds for multiplier `k`, or `None` when no amount is present
      (pandas then yields NaN percentiles, and every comparison with NaN is
      false). */
  function ComputeThresholds(rows: seq<Record>, k: real): (t: Option<Thresholds>)
    ensures t.None? <==> forall i :: 0 <= i < |rows| ==> rows[i].amount.None?
  {
    var amounts := PresentAmounts(rows);
    if amounts == [] then None
    else Some(Derive(Quantile(amounts, LowLevel), Quantile(amounts, HighLevel), k))
  }

  /** The spread is never negative, and both percentiles lie within the
      range of the present amounts. */
  lemma ThresholdsSpread(rows: seq<Record>, k: real)
    requires ComputeThresholds(rows, k).Some?
    ensures ComputeThresholds(rows, k).value.iqr >= 0.0
    ensures exists i :: 0 <= i < |rows| && rows[i].amount.Some?
                        && rows[i].amount.value <= ComputeThresholds(rows, k).value.q1
    ensures exists i :: 0 <= i < |rows| && rows[i].amount.Some?
                        && ComputeThresholds(rows, k).value.q3 <= rows[i].amount.value
  {
    var amounts := PresentAmounts(rows);
    var q1, q3 := Quantile(amounts, LowLevel), Quantile(amounts, HighLevel);
    var t := Derive(q1, q3, k);
    assert ComputeThresholds(rows, k) == Some(t);
    QuantileMonotone(amounts, LowLevel, HighLevel);
    assert t.iqr == q3 - q1;
    var j1 :| 0 <= j1 < |amounts| && amounts[j1] <= q1;
    assert amounts[j1] in amounts;
    var i1 :| 0 <= i1 < |rows| && rows[i1].amount == Some(amounts[j1]);
    assert rows[i1].amount.Some? && rows[i1].amount.value <= t.q1;
    var j3 :| 0 <= j3 < |amounts| && q3 <= amounts[j3];
    assert amounts[j3] in amounts;
    var i3 :| 0 <= i3 < |rows| && rows[i3].amount == Some(amounts[j3]);
    assert rows[i3].amount.Some? && t.q3 <= rows[i3].amount.value;
  }

  /** For a non-negative multiplier: `lower <= q1 <= q3 <= upper`. */
  lemma ThresholdsOrdered(rows: seq<Record>, k: real)
    requires ComputeThresholds(rows, k).Some? && k >= 0.0
    ensures var t := ComputeThresholds(rows, k).value;
            t.lower <= t.q1 <= t.q3 <= t.upper
  {
    ThresholdsSpread(rows, k);
  }

  /** The upper threshold grows with the multiplier when the spread is non-negative. */
  lemma DeriveUpperMonotone(q1: real, q3: real, k1: real, k2: real)
    requires q1 <= q3 && k1 <= k2
    ensures Derive(q1, q3, k1).upper <= Derive(q1, q3, k2).upper
  {
    var iqr := q3 - q1;
    ScaleMonotone(iqr, k1, k2);
    var u1, u2 := q3 + k1 * iqr, q3 + k2 * iqr;
    assert u1 <= u2;
    assert Derive(q1, q3, k1).upper == u1 && Derive(q1, q3, k2).upper == u2;
  }

  /** A raised multiplier never lowers the upper threshold. */
  lemma UpperMonotone(rows: seq<Record>, k1: real, k2: real)
    requires ComputeThresholds(rows, k1).Some? && k1 <= k2
    ensures ComputeThresholds(rows, k1).value.upper <= ComputeThresholds(rows, k2).value.upper
  {
    ThresholdsSpread(rows, k1);
    var t := ComputeThresholds(rows, k1).value;
    DeriveUpperMonotone(t.q1, t.q3, k1, k2);
  }

  /** The classification rule: an amount above `upper`, or, when small
      values are flagged too, below `lower`. A missing amount or missing
      thresholds never flag a row. */
  predicate Flagged(r: Record, t: Option<Thresholds>, flagLow: bool)
  {
    && t.Some? && r.amount.Some?
    && (r.amount.value > t.value.upper || (flagLow && r.amount.value < t.value.lower))
  }

  /** How many rows the thresholds flag. */
  function CountFlagged(rows: seq<Record>, t: Option<Thresholds>, flagLow: bool): nat
  {
    if rows == [] then 0
    else (if Flagged(rows[0], t, flagLow) then 1 else 0) + CountFlagged(rows[1..], t, flagLow)
  }

  /** The summed amount of the rows the thresholds flag. */
  function FlaggedTotal(rows: seq<Record>, t: Option<Thresholds>, flagLow: bool): real
  {
    if rows == [] then 0.0
    else (if Flagged(rows[0], t, flagLow) then rows[0].amount.value else 0.0) + FlaggedTotal(rows[1..], t, flagLow)
  }

  /** The boolean row mask: one entry per row, as many `true` entries as
      flagged rows. */
  function Mask(rows: seq<Record>, t: Option<Thresholds>, flagLow: bool): (m: seq<bool>)
    ensures |m| == |rows|
    ensures forall i :: 0 <= i < |rows| ==> (m[i] <==> Flagged(rows[i], t, flagLow))
    ensures TrueCount(m) == CountFlagged(rows, t, flagLow)
  {
    if rows == [] then []
    else
      var rest := Mask(rows[1..], t, flagLow);
      var m := [Flagged(rows[0], t, flagLow)] + rest;
      assert m[1..] == rest;
      assert forall i :: 1 <= i < |rows| ==> rows[i] == rows[1..][i - 1] && m[i] == rest[i - 1];
      m
  }

  /** The rows a mask keeps sum to the flagged total. */
  lemma {:induction false} SelectedTotal(rows: seq<Record>, t: Option<Thresholds>, flagLow: bool)
    ensures TotalAmount(Select(rows, Mask(rows, t, flagLow))) == FlaggedTotal(rows, t, flagLow)
  {
    if rows != [] {
      var m := Mask(rows, t, flagLow);
      assert m[1..] == Mask(rows[1..], t, flagLow);
      SelectedTotal(rows[1..], t, flagLow);
      var rest := Select(rows[1..], m[1..]);
      if m[0] {
        assert Select(rows, m) == [rows[0]] + rest;
        assert ([rows[0]] + rest)[1..] == rest;
      } else {
        assert Select(rows, m) == rest;
      }
    }
  }

  /** What the detector produces: the thresholds used, the outlier rows in
      input order, and the sum of their amounts. The outlier page shows the
      thresholds and the rows; the chatbot reports their number and sum. */
  datatype Detection = Detection(thresholds: Option<Thresholds>, outliers: seq<Record>, total: real)

  /** Applies thresholds `t` to the rows: the rows the mask keeps, in input
      order, and the sum of their amounts. */
  function Classify(rows: seq<Record>, t: Option<Thresholds>, flagLow: bool): (d: Detection)
    ensures d.thresholds == t
    ensures IsSubsequence(d.outliers, rows)
    ensures forall i :: 0 <= i < |rows| && Flagged(rows[i], t, flagLow) ==> rows[i] in d.outliers
    ensures forall x :: x in d.outliers ==> Flagged(x, t, flagLow)
    ensures |d.outliers| == CountFlagged(rows, t, flagLow)
    ensures d.total == TotalAmount(d.outliers) == FlaggedTotal(rows, t, flagLow)
  {
    var outliers := Select(rows, Mask(rows, t, flagLow));
    SelectedTotal(rows, t, flagLow);
    Detection(t, outliers, TotalAmount(outliers))
  }

  /** Runs the detector with multiplier `k`; `flagLow` is the "also flag
      unusually small values" toggle. */
  function Detect(rows: seq<Record>, k: real, flagLow: bool): (d: Detection)
    ensures d.thresholds == ComputeThresholds(rows, k)
    ensures IsSubsequence(d.outliers, rows)
    ensures forall i :: 0 <= i < |rows| && Flagged(rows[i], d.thresholds, flagLow) ==> rows[i] in d.outliers
    ensures forall x :: x in d.outliers ==> Flagged(x, d.thresholds, flagLow)
    ensures |d.outliers| == CountFlagged(rows, d.thresholds, flagLow)
    ensures d.total == TotalAmount(d.outliers) == FlaggedTotal(rows, d.thresholds, flagLow)
  {
    Classify(rows, ComputeThresholds(rows, k), flagLow)
  }

  /** With the toggle off, a row value is an outlier exactly when it occurs
      in the input with a present amount above `upper`. */
  lemma ToggleOffIsAboveUpper(rows: seq<Record>, k: real, x: Record)
    ensures x in Detect(rows, k, false).outliers
        <==> x in rows && x.amount.Some? && ComputeThresholds(rows, k).Some?
             && x.amount.value > ComputeThresholds(rows, k).value.upper
  {
    var d := Detect(rows, k, false);
    if x in d.outliers {
      SubsequenceBounds(d.outliers, rows);
    } else if x in rows {
      var i :| 0 <= i < |rows| && rows[i] == x;
    }
  }

  /** With the toggle off, the outliers are exactly the input rows whose
      present amount lies above `upper`. */
  lemma OutliersAboveUpper(rows: seq<Record>, k: real)
    ensures forall x :: (x in Detect(rows, k, false).outliers
                         <==> x in rows && x.amount.Some? && ComputeThresholds(rows, k).Some?
                              && x.amount.value > ComputeThresholds(rows, k).value.upper)
  {
    forall x {
      ToggleOffIsAboveUpper(rows, k, x);
    }
  }

  /** With the toggle on, a row value is an outlier exactly when it occurs
      in the input with a present amount above `upper` or below `lower`. */
  lemma ToggleOnIsOutsideRange(rows: seq<Record>, k: real, x: Record)
    ensures x in Detect(rows, k, true).outliers
        <==> x in rows && x.amount.Some? && ComputeThresholds(rows, k).Some?
             && (x.amount.value > ComputeThresholds(rows, k).value.upper
                 || x.amount.value < ComputeThresholds(rows, k).value.lower)
  {
    var d := Detect(rows, k, true);
    if x in d.outliers {
      SubsequenceBounds(d.outliers, rows);
    } else if x in rows {
      var i :| 0 <= i < |rows| && rows[i] == x;
    }
  }

  /** Turning the toggle on only adds rows: the toggle-off outliers are an
      order-preserving subsequence of the toggle-on outliers. */
  lemma ToggleOnAddsRows(rows: seq<Record>, k: real)
    ensures IsSubsequence(Detect(rows, k, false).outliers, Detect(rows, k, true).outliers)
    ensures |Detect(rows, k, false).outliers| <= |Detect(rows, k, true).outliers|
  {
    var t := ComputeThresholds(rows, k);
    SelectMonotone(rows, Mask(rows, t, false), Mask(rows, t, true));
    SubsequenceBounds(Detect(rows, k, false).outliers, Detect(rows, k, true).outliers);
  }

  /** A row whose amount is missing is never an outlier, and a table with no
      present amount has no outliers at all. */
  lemma MissingNeverFlagged(rows: seq<Record>, k: real, flagLow: bool)
    ensures forall x :: x in Detect(rows, k, flagLow).outliers ==> x.amount.Some?
    ensures (forall i :: 0 <= i < |rows| ==> rows[i].amount.None?) ==>
              Detect(rows, k, flagLow).outliers == [] && Detect(rows, k, flagLow).total == 0.0
  {
    var t := ComputeThresholds(rows, k);
    if t.None? {
      var m := Mask(rows, t, flagLow);
      NoneKept(m);
      assert Detect(rows, k, flagLow).outliers == Select(rows, m);
    }
  }

  /** A larger multiplier never produces more toggle-off outliers: its
      outliers are a subsequence of those of the smaller multiplier. */
  lemma MultiplierMonotone(rows: seq<Record>, k1: real, k2: real)
    requires k1 <= k2
    ensures IsSubsequence(Detect(rows, k2, false).outliers, Detect(rows, k1, false).outliers)
    ensures |Detect(rows, k2, false).outliers| <= |Detect(rows, k1, false).outliers|
  {
    var t1, t2 := ComputeThresholds(rows, k1), ComputeThresholds(rows, k2);
    if t1.Some? {
      UpperMonotone(rows, k1, k2);
    }
    SelectMonotone(rows, Mask(rows, t2, false), Mask(rows, t1, false));
    SubsequenceBounds(Detect(rows, k2, false).outliers, Detect(rows, k1, false).outliers);
  }
}
