/**
 * Reduction of a timeseries for display: samples whose value barely
 * changed are dropped (keeping the first and last sample of each flat run),
 * and a `None` marker is put in the middle of every gap longer than the
 * split threshold so that charts break the line there.
 *
 * Durations are integer microseconds. The reduction is specified by the
 * state of its loop after each sample (`Reduce`); `asWritten` selects the
 * change test and the last-sample test as the source writes them, the
 * default being their corrected forms.
 */
module DataReduction {
  import opened Wrappers
  import opened Calendar
  import opened Timeseries

  /** 15 minutes. */
  const DefaultSplitThreshold: int := 15 * 60 * MicrosPerSecond
  const DefaultSampleReduceThreshold: real := 0.01

  function Abs(x: real): real { if x < 0.0 then -x else x }

  function AbsInt(x: int): int { if x < 0 then -x else x }

  /**
   * `is_value_changed` as written: the relative change is measured against
   * `threshold * previous_value`, which is negative for a negative previous
   * value.
   */
  function IsValueChangedAsWritten(value: Option<real>, previousValue: Option<real>, threshold: real): bool
  {
    if threshold <= 0.0 then true
    else if value.None? != previousValue.None? then true
    else if value.None? then false
    else if value.value == previousValue.value then false
    else if value.value == 0.0 || previousValue.value == 0.0 then true
    else Abs(previousValue.value - value.value) > threshold * previousValue.value
  }

  /** `is_value_changed` with the relative change measured against the magnitude of the previous value. */
  function IsValueChanged(value: Option<real>, previousValue: Option<real>, threshold: real): bool
  {
    if threshold <= 0.0 then true
    else if value.None? != previousValue.None? then true
    else if value.None? then false
    else if value.value == previousValue.value then false
    else if value.value == 0.0 || previousValue.value == 0.0 then true
    else Abs(previousValue.value - value.value) > threshold * Abs(previousValue.value)
  }

  /** The cases of the change test, each stated outright. */
  lemma IsValueChangedCases(value: Option<real>, previousValue: Option<real>, threshold: real)
    ensures threshold <= 0.0 ==> IsValueChanged(value, previousValue, threshold)
    ensures threshold > 0.0 && value.None? && previousValue.None? ==> !IsValueChanged(value, previousValue, threshold)
    ensures value.None? != previousValue.None? ==> IsValueChanged(value, previousValue, threshold)
    ensures threshold > 0.0 && value.Some? && value == previousValue ==> !IsValueChanged(value, previousValue, threshold)
    ensures value.Some? && previousValue.Some? && value != previousValue && (value.value == 0.0 || previousValue.value == 0.0)
      ==> IsValueChanged(value, previousValue, threshold)
    ensures threshold > 0.0 && value.Some? && previousValue.Some? && value.value != 0.0 && previousValue.value != 0.0 ==>
      (IsValueChanged(value, previousValue, threshold) <==>
        Abs(previousValue.value - value.value) > threshold * Abs(previousValue.value))
  {
  }

  /**
   * The cases of the change test as written: the first five are those of the
   * corrected test, and the last compares with `threshold * previous_value`.
   */
  lemma IsValueChangedAsWrittenCases(value: Option<real>, previousValue: Option<real>, threshold: real)
    ensures threshold <= 0.0 ==> IsValueChangedAsWritten(value, previousValue, threshold)
    ensures threshold > 0.0 && value.None? && previousValue.None? ==> !IsValueChangedAsWritten(value, previousValue, threshold)
    ensures value.None? != previousValue.None? ==> IsValueChangedAsWritten(value, previousValue, threshold)
    ensures threshold > 0.0 && value.Some? && value == previousValue ==> !IsValueChangedAsWritten(value, previousValue, threshold)
    ensures value.Some? && previousValue.Some? && value != previousValue && (value.value == 0.0 || previousValue.value == 0.0)
      ==> IsValueChangedAsWritten(value, previousValue, threshold)
    ensures threshold > 0.0 && value.Some? && previousValue.Some? && value != previousValue && value.value != 0.0 &&
            previousValue.value != 0.0 ==>
      (IsValueChangedAsWritten(value, previousValue, threshold) <==>
        Abs(previousValue.value - value.value) > threshold * previousValue.value)
  {
  }

  /**
   * The two forms agree except on a negative previous value, where the test
   * as written counts every difference as a change.
   */
  lemma AsWrittenAgreesUnlessNegative(value: Option<real>, previousValue: Option<real>, threshold: real)
    ensures (previousValue.None? || previousValue.value >= 0.0) ==>
      IsValueChangedAsWritten(value, previousValue, threshold) == IsValueChanged(value, previousValue, threshold)
    ensures previousValue.Some? && previousValue.value < 0.0 && value != previousValue ==>
      IsValueChangedAsWritten(value, previousValue, threshold)
  {
    if threshold > 0.0 && previousValue.Some? && previousValue.value < 0.0 && value.Some? && value != previousValue && value.value != 0.0 {
      assert threshold * previousValue.value < 0.0;
    }
  }

  /** The change test is symmetric in sign: negating both values does not change the answer. */
  lemma IsValueChangedSignSymmetric(v: real, p: real, threshold: real)
    ensures IsValueChanged(Some(v), Some(p), threshold) == IsValueChanged(Some(-v), Some(-p), threshold)
  {
    assert -p - -v == -(p - v);
  }

  /** A negative value: as written, any difference at all counts as a change; corrected, a 0.01% step does not. */
  lemma NegativeValueFinding()
    ensures IsValueChangedAsWritten(Some(-10.001), Some(-10.0), 0.01)
    ensures !IsValueChanged(Some(-10.001), Some(-10.0), 0.01)
    ensures !IsValueChanged(Some(10.001), Some(10.0), 0.01)
  {
  }

  /** The source's table of change tests, which holds for both forms. */
  lemma IsValueChangedExamples()
    ensures !IsValueChanged(None, None, 0.5) && IsValueChanged(None, Some(1.0), 0.5) && IsValueChanged(Some(1.0), None, 0.5)
    ensures IsValueChanged(Some(1.0), Some(1.0), 0.0)
    ensures IsValueChanged(Some(1.02), Some(1.0), 0.01) && IsValueChanged(Some(1.0), Some(1.02), 0.01)
    ensures IsValueChanged(Some(0.02), Some(0.0), 0.01) && IsValueChanged(Some(0.0), Some(0.02), 0.01)
    ensures !IsValueChanged(Some(1.0), Some(1.0), 0.01) && !IsValueChanged(Some(0.0), Some(0.0), 0.01)
    ensures !IsValueChanged(Some(1.009), Some(1.0), 0.01) && !IsValueChanged(Some(1.0), Some(1.009), 0.01)
    ensures IsValueChanged(Some(0.009), Some(0.0), 0.01) && IsValueChanged(Some(0.0), Some(0.009), 0.01)
    ensures IsValueChangedAsWritten(Some(1.02), Some(1.0), 0.01) && !IsValueChangedAsWritten(Some(1.009), Some(1.0), 0.01)
    ensures !IsValueChangedAsWritten(Some(1.0), Some(1.009), 0.01) && !IsValueChangedAsWritten(None, None, 0.5)
  {
  }

  function Changed(asWritten: bool, value: Option<real>, previousValue: Option<real>, threshold: real): bool
  {
    if asWritten then IsValueChangedAsWritten(value, previousValue, threshold) else IsValueChanged(value, previousValue, threshold)
  }

  /** `timedelta / 2`: half the microseconds, a half rounded to the even neighbour. */
  function Halve(d: int): (h: int)
    ensures d >= 2 ==> 1 <= h <= d - 1
    ensures d == 1 ==> h == 0
    ensures d >= 0 ==> 2 * h - d <= 1 && d - 2 * h <= 1
  {
    var q := d / 2;
    if d % 2 == 0 || q % 2 == 0 then q else q + 1
  }

  /** The loop's variables: the output so far, the previous timestamp, and the loop index of the last added sample. */
  datatype Reduction = Reduction(timestamps: seq<DateTime>, values: seq<Option<real>>, prevTs: DateTime, lastAddedIdx: int)

  /** The output so far holds at least the first sample, as many timestamps as values. */
  predicate Started(r: Reduction)
  {
    |r.values| >= 1 && |r.timestamps| == |r.values|
  }

  /** The last value of the output so far. */
  function LastValue(r: Reduction): Option<real>
    requires Started(r)
  {
    r.values[|r.values| - 1]
  }

  /** One sample appended to the output. */
  function Append(r: Reduction, t: DateTime, v: Option<real>): (r': Reduction)
    requires Started(r)
    ensures Started(r') && r'.prevTs == r.prevTs && r'.lastAddedIdx == r.lastAddedIdx
    ensures r'.timestamps[|r'.timestamps| - 1] == t && LastValue(r') == v
  {
    r.(timestamps := r.timestamps + [t], values := r.values + [v])
  }

  /** A gap longer than `split` before `t` gets a `None` halfway between the previous timestamp and `t`. */
  function MarkGap(r: Reduction, t: DateTime, split: int): (r': Reduction)
    requires Started(r)
    ensures Started(r') && r'.prevTs == r.prevTs && r'.lastAddedIdx == r.lastAddedIdx
  {
    var delta := t.micros - r.prevTs.micros;
    if delta > split then Append(r, DateTime(r.prevTs.micros + Halve(delta), r.prevTs.aware), None) else r
  }

  /** Loop index `idx` visits sample `idx + 1`; the right edge of a skipped run is sample `idx`. */
  function Step(asWritten: bool, ts: seq<DateTime>, vs: seq<Option<real>>, threshold: real, split: int, r: Reduction, idx: nat): Reduction
    requires |ts| == |vs| && idx + 1 < |ts| && Started(r)
  {
    var t := ts[idx + 1];
    var v := vs[idx + 1];
    var r1 := MarkGap(r, t, split);
    var isLast := if asWritten then idx + 1 == |ts| else idx + 2 == |ts|;
    if Changed(asWritten, v, LastValue(r1), threshold) || isLast then
      var r2 := if idx - r.lastAddedIdx > 1 && LastValue(r1).Some? then Append(r1, ts[idx], vs[idx]) else r1;
      Append(r2, t, v).(prevTs := t, lastAddedIdx := idx)
    else
      r1.(prevTs := t)
  }

  /** The state after the first `k` loop iterations. */
  function Reduce(asWritten: bool, ts: seq<DateTime>, vs: seq<Option<real>>, threshold: real, split: int, k: nat): (r: Reduction)
    requires |ts| == |vs| && 1 <= |ts| && k < |ts|
    ensures Started(r) && r.timestamps[0] == ts[0] && r.values[0] == vs[0] && r.prevTs == ts[k]
    ensures 0 <= r.lastAddedIdx && (k == 0 ==> r.lastAddedIdx == 0) && (k > 0 ==> r.lastAddedIdx < k)
  {
    if k == 0 then Reduction([ts[0]], [vs[0]], ts[0], 0)
    else Step(asWritten, ts, vs, threshold, split, Reduce(asWritten, ts, vs, threshold, split, k - 1), k - 1)
  }

  /** `optimize_timeseries`: fewer than two samples are returned as they are. */
  function Optimize(asWritten: bool, data: TimeseriesData, sampleReduceThreshold: real, splitThreshold: int): (r: TimeseriesData)
    requires WellFormed(data)
    ensures WellFormed(r) && r.timeseriesId == data.timeseriesId
    ensures |data.values| < 2 ==> r == data
    ensures |data.values| >= 2 ==> |r.values| >= 1 && r.timestamps[0] == data.timestamps[0] && r.values[0] == data.values[0]
  {
    if |data.values| < 2 then data
    else
      var s := Reduce(asWritten, data.timestamps, data.values, Abs(sampleReduceThreshold), AbsInt(splitThreshold), |data.values| - 1);
      TimeseriesData(data.timeseriesId, s.timestamps, s.values)
  }

  /** The loop of `optimize_timeseries`, with the corrected change and last-sample tests. */
  method OptimizeTimeseries(data: TimeseriesData, sampleReduceThreshold: real, splitThreshold: int) returns (r: TimeseriesData)
    requires WellFormed(data)
    ensures r == Optimize(false, data, sampleReduceThreshold, splitThreshold)
  {
    if |data.values| < 2 {
      return data;
    }
    var threshold := Abs(sampleReduceThreshold);
    var split := AbsInt(splitThreshold);
    var tsLen := |data.values|;
    var timestamps := [data.timestamps[0]];
    var values := [data.values[0]];
    var prevTs := data.timestamps[0];
    var lastAddedIdx := 0;
    for idx := 0 to tsLen - 1
      invariant Reduction(timestamps, values, prevTs, lastAddedIdx) == Reduce(false, data.timestamps, data.values, threshold, split, idx)
    {
      ReduceNext(false, data.timestamps, data.values, threshold, split, idx);
      timestamps, values, prevTs, lastAddedIdx := OptimizeStep(data, threshold, split, idx, timestamps, values, prevTs, lastAddedIdx);
    }
    OptimizeIsReduce(data, sampleReduceThreshold, splitThreshold);
    r := TimeseriesData(data.timeseriesId, timestamps, values);
  }

  /** With two samples or more the result is the loop's output after its last pass. */
  lemma OptimizeIsReduce(data: TimeseriesData, sampleReduceThreshold: real, splitThreshold: int)
    requires WellFormed(data) && |data.values| >= 2
    ensures var s := Reduce(false, data.timestamps, data.values, Abs(sampleReduceThreshold), AbsInt(splitThreshold), |data.values| - 1);
      Optimize(false, data, sampleReduceThreshold, splitThreshold) == TimeseriesData(data.timeseriesId, s.timestamps, s.values)
  {
  }

  /** Each pass of the loop is one step from the state after the passes before it. */
  lemma ReduceNext(asWritten: bool, ts: seq<DateTime>, vs: seq<Option<real>>, threshold: real, split: int, k: nat)
    requires |ts| == |vs| && k + 1 < |ts|
    ensures Reduce(asWritten, ts, vs, threshold, split, k + 1) == Step(asWritten, ts, vs, threshold, split, Reduce(asWritten, ts, vs, threshold, split, k), k)
  {
  }

  /**
   * One pass of the loop of `optimize_timeseries`: mark a long gap, then add
   * a changed or final sample, after the right edge of the run it ends.
   */
  method OptimizeStep(data: TimeseriesData, threshold: real, split: int, idx: nat,
                      timestamps: seq<DateTime>, values: seq<Option<real>>, prevTs: DateTime, lastAddedIdx: int)
    returns (timestamps': seq<DateTime>, values': seq<Option<real>>, prevTs': DateTime, lastAddedIdx': int)
    requires WellFormed(data) && idx + 1 < |data.values| && |values| >= 1 && |timestamps| == |values|
    ensures Reduction(timestamps', values', prevTs', lastAddedIdx')
         == Step(false, data.timestamps, data.values, threshold, split, Reduction(timestamps, values, prevTs, lastAddedIdx), idx)
  {
    ghost var before := Reduction(timestamps, values, prevTs, lastAddedIdx);
    timestamps', values', prevTs', lastAddedIdx' := timestamps, values, prevTs, lastAddedIdx;
    var ts := data.timestamps[idx + 1];
    var val := data.values[idx + 1];
    var delta := ts.micros - prevTs.micros;
    if delta > split {
      timestamps' := timestamps' + [DateTime(prevTs.micros + Halve(delta), prevTs.aware)];
      values' := values' + [None];
    }
    ghost var marked := Reduction(timestamps', values', prevTs, lastAddedIdx);
    assert marked == MarkGap(before, ts, split);
    if IsValueChanged(val, values'[|values'| - 1], threshold) || idx + 2 == |data.values| {
      if idx - lastAddedIdx > 1 && values'[|values'| - 1].Some? {
        timestamps' := timestamps' + [data.timestamps[idx]];
        values' := values' + [data.values[idx]];
      }
      timestamps' := timestamps' + [ts];
      values' := values' + [val];
      lastAddedIdx' := idx;
    }
    prevTs' := ts;
  }

  predicate StrictlyIncreasing(ts: seq<DateTime>)
  {
    forall i :: 0 <= i < |ts| - 1 ==> ts[i].micros < ts[i + 1].micros
  }

  /** Sample `(t, v)` is one of the input samples. */
  predicate IsInputSample(t: DateTime, v: Option<real>, ts: seq<DateTime>, vs: seq<Option<real>>)
    requires |ts| == |vs|
  {
    exists j :: 0 <= j < |ts| && t == ts[j] && v == vs[j]
  }

  /** Every output sample with a value is an input sample: reduction invents no values. */
  predicate FromInput(outTs: seq<DateTime>, outVs: seq<Option<real>>, ts: seq<DateTime>, vs: seq<Option<real>>)
    requires |outTs| == |outVs| && |ts| == |vs|
  {
    forall i :: 0 <= i < |outVs| && outVs[i].Some? ==> IsInputSample(outTs[i], outVs[i], ts, vs)
  }

  /** The output so far is increasing and made of input samples and markers. */
  predicate Sound(r: Reduction, ts: seq<DateTime>, vs: seq<Option<real>>)
    requires |ts| == |vs|
  {
    Started(r) && StrictlyIncreasing(r.timestamps) && FromInput(r.timestamps, r.values, ts, vs)
  }

  function LastMicros(r: Reduction): int
    requires Started(r)
  {
    r.timestamps[|r.timestamps| - 1].micros
  }

  lemma AppendSound(r: Reduction, t: DateTime, v: Option<real>, ts: seq<DateTime>, vs: seq<Option<real>>)
    requires |ts| == |vs| && Sound(r, ts, vs) && LastMicros(r) < t.micros
    requires v.Some? ==> IsInputSample(t, v, ts, vs)
    ensures Sound(Append(r, t, v), ts, vs) && LastMicros(Append(r, t, v)) == t.micros
  {
    var r' := Append(r, t, v);
    assert forall i :: 0 <= i < |r.values| ==> r'.timestamps[i] == r.timestamps[i] && r'.values[i] == r.values[i];
  }

  /** What holds of the loop state after `k` iterations. */
  predicate ReduceInvariant(ts: seq<DateTime>, vs: seq<Option<real>>, r: Reduction, k: nat)
    requires |ts| == |vs| && k < |ts|
  {
    Sound(r, ts, vs) && r.prevTs == ts[k] && 0 <= r.lastAddedIdx && r.lastAddedIdx + 1 < |ts| &&
    (k == 0 ==> r.lastAddedIdx == 0) && (k > 0 ==> r.lastAddedIdx < k) &&
    LastMicros(r) <= ts[k].micros &&
    (LastValue(r).Some? && k > 0 ==> LastMicros(r) <= ts[r.lastAddedIdx + 1].micros) &&
    (k == 0 ==> LastMicros(r) == ts[0].micros)
  }

  lemma {:induction false} IncreasingApart(ts: seq<DateTime>, i: nat, j: nat)
    requires StrictlyIncreasing(ts) && i < j < |ts|
    ensures ts[i].micros < ts[j].micros
  {
    if j > i + 1 {
      IncreasingApart(ts, i, j - 1);
    }
  }

  lemma MarkGapSound(r: Reduction, t: DateTime, split: int, ts: seq<DateTime>, vs: seq<Option<real>>)
    requires |ts| == |vs| && Sound(r, ts, vs) && split >= 1 && LastMicros(r) <= r.prevTs.micros < t.micros
    ensures var r1 := MarkGap(r, t, split);
      Sound(r1, ts, vs) && LastMicros(r1) < t.micros &&
      (r1 != r ==> LastValue(r1).None?)
  {
    var delta := t.micros - r.prevTs.micros;
    if delta > split {
      AppendSound(r, DateTime(r.prevTs.micros + Halve(delta), r.prevTs.aware), None, ts, vs);
    }
  }

  lemma StepKeepsInvariant(asWritten: bool, ts: seq<DateTime>, vs: seq<Option<real>>, threshold: real, split: int, r: Reduction, idx: nat)
    requires |ts| == |vs| && idx + 1 < |ts| && split >= 1
    requires StrictlyIncreasing(ts)
    requires ReduceInvariant(ts, vs, r, idx)
    ensures ReduceInvariant(ts, vs, Step(asWritten, ts, vs, threshold, split, r, idx), idx + 1)
  {
    var r1 := MarkGap(r, ts[idx + 1], split);
    var isLast := if asWritten then idx + 1 == |ts| else idx + 2 == |ts|;
    if Changed(asWritten, vs[idx + 1], LastValue(r1), threshold) || isLast {
      AddingKeepsInvariant(asWritten, ts, vs, threshold, split, r, idx);
    } else {
      SkippingKeepsInvariant(asWritten, ts, vs, threshold, split, r, idx);
    }
  }

  /** The step that appends sample `idx + 1`, after the right edge of a skipped run when there is one. */
  lemma AddingKeepsInvariant(asWritten: bool, ts: seq<DateTime>, vs: seq<Option<real>>, threshold: real, split: int, r: Reduction, idx: nat)
    requires |ts| == |vs| && idx + 1 < |ts| && split >= 1
    requires StrictlyIncreasing(ts)
    requires ReduceInvariant(ts, vs, r, idx)
    requires var r1 := MarkGap(r, ts[idx + 1], split);
      Changed(asWritten, vs[idx + 1], LastValue(r1), threshold) || (if asWritten then idx + 1 == |ts| else idx + 2 == |ts|)
    ensures ReduceInvariant(ts, vs, Step(asWritten, ts, vs, threshold, split, r, idx), idx + 1)
  {
    var t := ts[idx + 1];
    var v := vs[idx + 1];
    var r1 := MarkGap(r, t, split);
    var edge := idx - r.lastAddedIdx > 1 && LastValue(r1).Some?;
    var r2 := if edge then Append(r1, ts[idx], vs[idx]) else r1;
    EdgeSound(asWritten, ts, vs, split, r, idx);
    assert IsInputSample(t, v, ts, vs);
    AppendSound(r2, t, v, ts, vs);
  }

  /** Before sample `idx + 1` the output is still sound and ends before it, with or without the edge sample. */
  lemma EdgeSound(asWritten: bool, ts: seq<DateTime>, vs: seq<Option<real>>, split: int, r: Reduction, idx: nat)
    requires |ts| == |vs| && idx + 1 < |ts| && split >= 1
    requires StrictlyIncreasing(ts)
    requires ReduceInvariant(ts, vs, r, idx)
    ensures var r1 := MarkGap(r, ts[idx + 1], split);
      var r2 := if idx - r.lastAddedIdx > 1 && LastValue(r1).Some? then Append(r1, ts[idx], vs[idx]) else r1;
      Sound(r2, ts, vs) && LastMicros(r2) < ts[idx + 1].micros
  {
    var t := ts[idx + 1];
    assert ts[idx].micros < t.micros;
    var r1 := MarkGap(r, t, split);
    MarkGapSound(r, t, split, ts, vs);
    if idx - r.lastAddedIdx > 1 && LastValue(r1).Some? {
      assert r1 == r;
      IncreasingApart(ts, r.lastAddedIdx + 1, idx);
      assert IsInputSample(ts[idx], vs[idx], ts, vs);
      AppendSound(r1, ts[idx], vs[idx], ts, vs);
    }
  }

  /** The step that skips sample `idx + 1` keeps the output, bar a gap marker. */
  lemma SkippingKeepsInvariant(asWritten: bool, ts: seq<DateTime>, vs: seq<Option<real>>, threshold: real, split: int, r: Reduction, idx: nat)
    requires |ts| == |vs| && idx + 1 < |ts| && split >= 1
    requires StrictlyIncreasing(ts)
    requires ReduceInvariant(ts, vs, r, idx)
    requires var r1 := MarkGap(r, ts[idx + 1], split);
      !(Changed(asWritten, vs[idx + 1], LastValue(r1), threshold) || (if asWritten then idx + 1 == |ts| else idx + 2 == |ts|))
    ensures ReduceInvariant(ts, vs, Step(asWritten, ts, vs, threshold, split, r, idx), idx + 1)
  {
    var t := ts[idx + 1];
    assert ts[idx].micros < t.micros;
    var r1 := MarkGap(r, t, split);
    MarkGapSound(r, t, split, ts, vs);
    if LastValue(r1).Some? && idx == 0 {
      assert r1 == r;
    }
  }

  lemma {:induction false} ReduceKeepsInvariant(asWritten: bool, ts: seq<DateTime>, vs: seq<Option<real>>, threshold: real, split: int, k: nat)
    requires |ts| == |vs| && 2 <= |ts| && k < |ts| && split >= 1
    requires StrictlyIncreasing(ts)
    ensures ReduceInvariant(ts, vs, Reduce(asWritten, ts, vs, threshold, split, k), k)
  {
    if k > 0 {
      ReduceKeepsInvariant(asWritten, ts, vs, threshold, split, k - 1);
      StepKeepsInvariant(asWritten, ts, vs, threshold, split, Reduce(asWritten, ts, vs, threshold, split, k - 1), k - 1);
      ReduceNext(asWritten, ts, vs, threshold, split, k - 1);
    } else {
      InitialInvariant(asWritten, ts, vs, threshold, split);
    }
  }

  /** Before the loop the output is the first sample alone. */
  lemma InitialInvariant(asWritten: bool, ts: seq<DateTime>, vs: seq<Option<real>>, threshold: real, split: int)
    requires |ts| == |vs| && 2 <= |ts|
    ensures ReduceInvariant(ts, vs, Reduce(asWritten, ts, vs, threshold, split, 0), 0)
  {
    assert IsInputSample(ts[0], vs[0], ts, vs);
  }

  /**
   * With a split threshold of at least one microsecond, strictly increasing
   * input timestamps give strictly increasing output timestamps, and every
   * output sample with a value is an input sample.
   */
  lemma OptimizeKeepsOrder(asWritten: bool, data: TimeseriesData, sampleReduceThreshold: real, splitThreshold: int)
    requires WellFormed(data) && StrictlyIncreasing(data.timestamps) && AbsInt(splitThreshold) >= 1
    ensures var r := Optimize(asWritten, data, sampleReduceThreshold, splitThreshold);
      StrictlyIncreasing(r.timestamps) && FromInput(r.timestamps, r.values, data.timestamps, data.values)
  {
    if |data.values| >= 2 {
      ReduceKeepsInvariant(asWritten, data.timestamps, data.values, Abs(sampleReduceThreshold), AbsInt(splitThreshold), |data.values| - 1);
    } else {
      forall i | 0 <= i < |data.values| && data.values[i].Some?
        ensures IsInputSample(data.timestamps[i], data.values[i], data.timestamps, data.values)
      {
        assert data.timestamps[i] == data.timestamps[i];
      }
    }
  }

  /** With the corrected last-sample test, the last input sample always ends the output. */
  lemma OptimizeKeepsLastSample(data: TimeseriesData, sampleReduceThreshold: real, splitThreshold: int)
    requires WellFormed(data) && |data.values| >= 1
    ensures var r := Optimize(false, data, sampleReduceThreshold, splitThreshold);
      |r.values| >= 1 &&
      r.timestamps[|r.timestamps| - 1] == data.timestamps[|data.timestamps| - 1] &&
      r.values[|r.values| - 1] == data.values[|data.values| - 1]
  {
  }

  /** Two equal values a minute apart: as written, the second is dropped; corrected, it is kept. */
  lemma TrailingRunFinding(base: int)
    ensures var data := TimeseriesData(42, [DateTime(base, true), DateTime(base + 60 * MicrosPerSecond, true)], [Some(1.0), Some(1.0)]);
      Optimize(true, data, DefaultSampleReduceThreshold, DefaultSplitThreshold).timestamps == [DateTime(base, true)] &&
      Optimize(false, data, DefaultSampleReduceThreshold, DefaultSplitThreshold).timestamps == data.timestamps
  {
    var ts := [DateTime(base, true), DateTime(base + 60 * MicrosPerSecond, true)];
    var vs := [Some(1.0), Some(1.0)];
    var r0 := Reduce(true, ts, vs, 0.01, DefaultSplitThreshold, 0);
    assert MarkGap(r0, ts[1], DefaultSplitThreshold) == r0;
    assert Reduce(true, ts, vs, 0.01, DefaultSplitThreshold, 1) == r0.(prevTs := ts[1]);
    var c0 := Reduce(false, ts, vs, 0.01, DefaultSplitThreshold, 0);
    assert MarkGap(c0, ts[1], DefaultSplitThreshold) == c0;
    assert Reduce(false, ts, vs, 0.01, DefaultSplitThreshold, 1).timestamps == ts;
  }

  /** With no split threshold, a 1 µs gap puts the marker on the previous sample's timestamp. */
  lemma ZeroSplitDuplicatesTimestamp(base: int)
    ensures var data := TimeseriesData(42, [DateTime(base, true), DateTime(base + 1, true)], [Some(1.0), Some(2.0)]);
      Optimize(false, data, DefaultSampleReduceThreshold, 0).timestamps == [DateTime(base, true), DateTime(base, true), DateTime(base + 1, true)]
  {
    var ts := [DateTime(base, true), DateTime(base + 1, true)];
    var vs := [Some(1.0), Some(2.0)];
    var r0 := Reduce(false, ts, vs, 0.01, 0, 0);
    var r1 := MarkGap(r0, ts[1], 0);
    assert r1.timestamps == [DateTime(base, true), DateTime(base, true)] && LastValue(r1) == None;
    assert Reduce(false, ts, vs, 0.01, 0, 1).timestamps == r1.timestamps + [ts[1]];
  }

  /** A flat run at the start with one skipped sample: its right edge is not kept. */
  lemma DuplicateAtBeginningExample(base: int)
    ensures var data := TimeseriesData(42, [DateTime(base, true), DateTime(base + 60 * MicrosPerSecond, true), DateTime(base + 120 * MicrosPerSecond, true)],
        [Some(1.0), Some(1.0), Some(2.0)]);
      var r := Optimize(false, data, DefaultSampleReduceThreshold, DefaultSplitThreshold);
      r.timestamps == [DateTime(base, true), DateTime(base + 120 * MicrosPerSecond, true)] && r.values == [Some(1.0), Some(2.0)]
  {
    var ts := [DateTime(base, true), DateTime(base + 60 * MicrosPerSecond, true), DateTime(base + 120 * MicrosPerSecond, true)];
    var vs := [Some(1.0), Some(1.0), Some(2.0)];
    var r0 := Reduce(false, ts, vs, 0.01, DefaultSplitThreshold, 0);
    assert MarkGap(r0, ts[1], DefaultSplitThreshold) == r0;
    assert !IsValueChanged(Some(1.0), Some(1.0), 0.01);
    var r1 := Reduce(false, ts, vs, 0.01, DefaultSplitThreshold, 1);
    assert r1 == r0.(prevTs := ts[1]);
    assert MarkGap(r1, ts[2], DefaultSplitThreshold) == r1;
    assert IsValueChanged(Some(2.0), Some(1.0), 0.01);
    var r2 := Reduce(false, ts, vs, 0.01, DefaultSplitThreshold, 2);
    assert r2.timestamps == [ts[0], ts[2]] && r2.values == [vs[0], vs[2]];
  }

  /** A gap longer than the split threshold gets a `None` in its middle. */
  lemma GapMarkerExample(base: int)
    ensures var data := TimeseriesData(42, [DateTime(base, true), DateTime(base + 120 * MicrosPerSecond, true)], [Some(1.0), Some(2.0)]);
      var r := Optimize(false, data, DefaultSampleReduceThreshold, 30 * MicrosPerSecond);
      r.timestamps == [DateTime(base, true), DateTime(base + 60 * MicrosPerSecond, true), DateTime(base + 120 * MicrosPerSecond, true)] &&
      r.values == [Some(1.0), None, Some(2.0)]
  {
    var ts := [DateTime(base, true), DateTime(base + 120 * MicrosPerSecond, true)];
    var vs := [Some(1.0), Some(2.0)];
    assert Halve(120 * MicrosPerSecond) == 60 * MicrosPerSecond;
    var r0 := Reduce(false, ts, vs, 0.01, 30 * MicrosPerSecond, 0);
    var r1 := MarkGap(r0, ts[1], 30 * MicrosPerSecond);
    assert r1.timestamps == [ts[0], DateTime(base + 60 * MicrosPerSecond, true)] && r1.values == [Some(1.0), None];
    assert Reduce(false, ts, vs, 0.01, 30 * MicrosPerSecond, 1) == Append(r1, ts[1], vs[1]).(prevTs := ts[1], lastAddedIdx := 0);
  }

  /** Aware instant `s` seconds after `base`. */
  function At(base: int, s: int): DateTime
  {
    DateTime(base + s * MicrosPerSecond, true)
  }

  function StepsTimestamps(base: int): seq<DateTime>
  {
    [At(base, 0), At(base, 1), At(base, 2), At(base, 3), At(base, 4), At(base, 5), At(base, 6), At(base, 7), At(base, 8), At(base, 9)]
  }

  function StepsValues(): seq<Option<real>>
  {
    [Some(1.0), Some(2.0), Some(2.0), Some(2.0), Some(2.0), Some(2.0), Some(2.0), Some(3.0), Some(3.0), Some(4.0)]
  }

  /** The first six samples of the steps vector: the run of 2.0 is entered and not yet left. */
  lemma StepsFirstRun(base: int)
    ensures var ts := StepsTimestamps(base);
      Reduce(false, ts, StepsValues(), 0.01, DefaultSplitThreshold, 6) == Reduction([ts[0], ts[1]], [Some(1.0), Some(2.0)], ts[6], 0)
  {
    var ts := StepsTimestamps(base);
    var vs := StepsValues();
    var split := DefaultSplitThreshold;
    assert IsValueChanged(Some(2.0), Some(1.0), 0.01) && !IsValueChanged(Some(2.0), Some(2.0), 0.01);
    var r0 := Reduce(false, ts, vs, 0.01, split, 0);
    assert MarkGap(r0, ts[1], split) == r0;
    var r1 := Reduce(false, ts, vs, 0.01, split, 1);
    assert r1 == Reduction([ts[0], ts[1]], [vs[0], vs[1]], ts[1], 0);
    assert MarkGap(r1, ts[2], split) == r1;
    var r2 := Reduce(false, ts, vs, 0.01, split, 2);
    assert r2 == r1.(prevTs := ts[2]);
    assert MarkGap(r2, ts[3], split) == r2;
    var r3 := Reduce(false, ts, vs, 0.01, split, 3);
    assert r3 == r1.(prevTs := ts[3]);
    assert MarkGap(r3, ts[4], split) == r3;
    var r4 := Reduce(false, ts, vs, 0.01, split, 4);
    assert r4 == r1.(prevTs := ts[4]);
    assert MarkGap(r4, ts[5], split) == r4;
    var r5 := Reduce(false, ts, vs, 0.01, split, 5);
    assert r5 == r1.(prevTs := ts[5]);
    assert MarkGap(r5, ts[6], split) == r5;
  }

  /** Flat runs keep their first and last sample; a change ends the run. */
  lemma StepsExample(base: int)
    ensures var data := TimeseriesData(42, StepsTimestamps(base), StepsValues());
      var r := Optimize(false, data, DefaultSampleReduceThreshold, DefaultSplitThreshold);
      r.timestamps == [At(base, 0), At(base, 1), At(base, 6), At(base, 7), At(base, 8), At(base, 9)] &&
      r.values == [Some(1.0), Some(2.0), Some(2.0), Some(3.0), Some(3.0), Some(4.0)]
  {
    var ts := StepsTimestamps(base);
    var vs := StepsValues();
    var split := DefaultSplitThreshold;
    assert IsValueChanged(Some(3.0), Some(2.0), 0.01) && !IsValueChanged(Some(3.0), Some(3.0), 0.01);
    assert IsValueChanged(Some(4.0), Some(3.0), 0.01);
    StepsFirstRun(base);
    var r6 := Reduce(false, ts, vs, 0.01, split, 6);
    assert MarkGap(r6, ts[7], split) == r6;
    var r7 := Reduce(false, ts, vs, 0.01, split, 7);
    assert r7 == Reduction([ts[0], ts[1], ts[6], ts[7]], [vs[0], vs[1], vs[6], vs[7]], ts[7], 6);
    assert MarkGap(r7, ts[8], split) == r7;
    var r8 := Reduce(false, ts, vs, 0.01, split, 8);
    assert r8 == r7.(prevTs := ts[8]);
    assert MarkGap(r8, ts[9], split) == r8;
    var r9 := Reduce(false, ts, vs, 0.01, split, 9);
    assert r9.timestamps == [ts[0], ts[1], ts[6], ts[7], ts[8], ts[9]] && r9.values == [vs[0], vs[1], vs[6], vs[7], vs[8], vs[9]];
  }
}
