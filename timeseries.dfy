/**
 * Timeseries storage of the server database: the validated containers for
 * samples and date ranges, the preparation of rows for insertion (one row
 * per distinct timestamp, duplicate samples coalesced), insertion in
 * batches into a table partitioned by month, and the grouping of query
 * results into one series per timeseries id.
 *
 * Timestamps are instants in microseconds with their awareness flag. The
 * database is the state of a `TimeseriesStore`; the rows a query returns
 * and the ids of existing timeseries are parameters. `prevent_real_overflow`
 * is the parameter `sanitize`.
 */
module Timeseries {
  import opened Wrappers
  import opened Uniqueness
  import opened Calendar
  import opened Partitions

  /** Samples are inserted in consecutive batches of at most this many. */
  const MaxBatchSize: nat := 1000
  /** The longest range a query may span: 30 days. */
  const MaxQueryRange: int := 30 * MicrosPerDay

  datatype TimeseriesError =
    | TimezoneMustBeSet
    | LengthMismatch
    | StartAfterEnd
    | EmptyRange
    | NoTimeseriesIds
    | RangeTooLong
    /** Requested ids that are not timeseries. */
    | NotFound(missing: set<int>)

  type Sample = (DateTime, Option<real>)

  /** A row of the timeseries table, and of a query result. */
  datatype Row = Row(timeseriesId: int, timestampUtc: DateTime, value: Option<real>)

  datatype TimeseriesData = TimeseriesData(timeseriesId: int, timestamps: seq<DateTime>, values: seq<Option<real>>)

  datatype DatetimeRange = DatetimeRange(startAtUtc: DateTime, endAtUtc: DateTime)

  predicate AllAware(ts: seq<DateTime>)
  {
    forall i :: 0 <= i < |ts| ==> ts[i].aware
  }

  /** `TimeseriesData`'s validators: every timestamp aware (checked first, per field), then equal lengths. */
  function NewTimeseriesData(timeseriesId: int, timestamps: seq<DateTime>, values: seq<Option<real>>): (r: Result<TimeseriesData, TimeseriesError>)
    ensures r.Ok? <==> AllAware(timestamps) && |timestamps| == |values|
    ensures r.Ok? ==> r.value == TimeseriesData(timeseriesId, timestamps, values)
    ensures !AllAware(timestamps) ==> r == Err(TimezoneMustBeSet)
    ensures AllAware(timestamps) && |timestamps| != |values| ==> r == Err(LengthMismatch)
  {
    if !AllAware(timestamps) then Err(TimezoneMustBeSet)
    else if |values| != |timestamps| then Err(LengthMismatch)
    else Ok(TimeseriesData(timeseriesId, timestamps, values))
  }

  /** A range that passed `DatetimeRange`'s validators. */
  predicate ValidRange(r: DatetimeRange)
  {
    r.startAtUtc.aware && r.endAtUtc.aware && r.startAtUtc.micros < r.endAtUtc.micros
  }

  /** `DatetimeRange`'s validators: both ends aware, then the start before the end, then a non-empty range. */
  function NewDatetimeRange(startAtUtc: DateTime, endAtUtc: DateTime): (r: Result<DatetimeRange, TimeseriesError>)
    ensures r.Ok? <==> ValidRange(DatetimeRange(startAtUtc, endAtUtc))
    ensures r.Ok? ==> r.value == DatetimeRange(startAtUtc, endAtUtc)
    ensures startAtUtc.aware && endAtUtc.aware ==>
      (r == Err(StartAfterEnd) <==> startAtUtc.micros > endAtUtc.micros) &&
      (r == Err(EmptyRange) <==> startAtUtc.micros == endAtUtc.micros)
    ensures !(startAtUtc.aware && endAtUtc.aware) ==> r == Err(TimezoneMustBeSet)
  {
    if !startAtUtc.aware || !endAtUtc.aware then Err(TimezoneMustBeSet)
    else if startAtUtc.micros > endAtUtc.micros then Err(StartAfterEnd)
    else if startAtUtc.micros == endAtUtc.micros then Err(EmptyRange)
    else Ok(DatetimeRange(startAtUtc, endAtUtc))
  }

  /** `DatetimeRange.from_timedelta`: from the given start, or from now, over `td` microseconds. */
  function FromTimedelta(td: int, startAtUtc: Option<DateTime>, now: DateTime): (r: Result<DatetimeRange, TimeseriesError>)
    ensures var s := if startAtUtc.Some? then startAtUtc.value else now;
      (r.Ok? <==> s.aware && td > 0) &&
      (r.Ok? ==> r.value.startAtUtc == s && r.value.endAtUtc.micros - s.micros == td)
  {
    var s := if startAtUtc.Some? then startAtUtc.value else now;
    NewDatetimeRange(s, DateTime(s.micros + td, s.aware))
  }

  /** `_coalesce_values`: the first value unless it is `None`. */
  function Coalesce(a: Option<real>, b: Option<real>): (r: Option<real>)
    ensures a.Some? ==> r == a
    ensures a.None? ==> r == b
  {
    if a.None? then b else a
  }

  function TimestampsOf(s: seq<Sample>): (ts: seq<DateTime>)
    ensures |ts| == |s| && forall i :: 0 <= i < |s| ==> ts[i] == s[i].0
  {
    seq(|s|, i requires 0 <= i < |s| => s[i].0)
  }

  /** The distinct timestamps in the order they first occur. */
  function DistinctTimestamps(ts: seq<DateTime>): (r: seq<DateTime>)
    ensures NoDuplicates(r) && |r| <= |ts|
    ensures forall t :: t in r <==> t in ts
  {
    if |ts| == 0 then []
    else
      var init := DistinctTimestamps(ts[..|ts| - 1]);
      AppendIfAbsentKeepsNoDuplicates(init, ts[|ts| - 1]);
      assert forall t :: t in ts <==> t in ts[..|ts| - 1] || t == ts[|ts| - 1] by {
        assert ts == ts[..|ts| - 1] + [ts[|ts| - 1]];
      }
      AppendIfAbsent(init, ts[|ts| - 1])
  }

  /** The value stored for timestamp `t`: the samples at `t`, sanitized, coalesced from the first. */
  function CoalescedValue(s: seq<Sample>, t: DateTime, sanitize: Option<real> -> Option<real>): Option<real>
  {
    if |s| == 0 then None
    else
      var prev := CoalescedValue(s[..|s| - 1], t, sanitize);
      if s[|s| - 1].0 == t then Coalesce(prev, sanitize(s[|s| - 1].1)) else prev
  }

  /** The rows `_build_values_to_insert` yields when every timestamp is aware. */
  function InsertedRows(timeseriesId: int, s: seq<Sample>, sanitize: Option<real> -> Option<real>): (rows: seq<Row>)
  {
    var ks := DistinctTimestamps(TimestampsOf(s));
    seq(|ks|, k requires 0 <= k < |ks| => Row(timeseriesId, ks[k], CoalescedValue(s, ks[k], sanitize)))
  }

  function RowTimestamps(rows: seq<Row>): (ts: seq<DateTime>)
    ensures |ts| == |rows| && forall i :: 0 <= i < |rows| ==> ts[i] == rows[i].timestampUtc
  {
    seq(|rows|, i requires 0 <= i < |rows| => rows[i].timestampUtc)
  }

  /**
   * `_build_values_to_insert`: a dictionary from timestamp to row, filled in
   * sample order. A timestamp seen before has its value coalesced; a new one
   * is validated, which refuses a naive timestamp.
   */
  method BuildValuesToInsert(timeseriesId: int, series: seq<Sample>, sanitize: Option<real> -> Option<real>)
    returns (r: Result<seq<Row>, TimeseriesError>)
    ensures r == if AllAware(TimestampsOf(series)) then Ok(InsertedRows(timeseriesId, series, sanitize)) else Err(TimezoneMustBeSet)
  {
    var keys: seq<DateTime> := [];
    var valuesToInsert: map<DateTime, Option<real>> := map[];
    BuildInit(series, sanitize);
    for i := 0 to |series|
      invariant BuildState(series, i, keys, valuesToInsert, sanitize)
    {
      var naive;
      naive, keys, valuesToInsert := AddSample(series, i, keys, valuesToInsert, sanitize);
      if naive {
        return Err(TimezoneMustBeSet);
      }
    }
    BuildDone(timeseriesId, series, keys, valuesToInsert, sanitize);
    r := Ok(DictionaryRows(timeseriesId, keys, valuesToInsert));
  }

  /**
   * One pass of the loop of `_build_values_to_insert`: a timestamp seen
   * before has its value coalesced; a new one is validated first, which
   * refuses a naive timestamp.
   */
  method AddSample(series: seq<Sample>, i: nat, keys: seq<DateTime>, values: map<DateTime, Option<real>>,
                   sanitize: Option<real> -> Option<real>)
    returns (naive: bool, keys': seq<DateTime>, values': map<DateTime, Option<real>>)
    requires BuildState(series, i, keys, values, sanitize) && i < |series|
    ensures naive <==> series[i].0 !in values && !series[i].0.aware
    ensures naive ==> !AllAware(TimestampsOf(series))
    ensures !naive ==> BuildState(series, i + 1, keys', values', sanitize)
  {
    var timestamp, value := series[i].0, series[i].1;
    if timestamp in values {
      BuildSeen(series, i, keys, values, sanitize);
      return false, keys, values[timestamp := Coalesce(values[timestamp], sanitize(value))];
    }
    if !timestamp.aware {
      BuildNaive(series, i);
      return true, keys, values;
    }
    BuildNew(series, i, keys, values, sanitize);
    return false, keys + [timestamp], values[timestamp := sanitize(value)];
  }

  /** `list(values_to_insert.values())`: one row per key, in insertion order. */
  function DictionaryRows(timeseriesId: int, keys: seq<DateTime>, values: map<DateTime, Option<real>>): (rows: seq<Row>)
    requires SameKeys(keys, values)
    ensures |rows| == |keys|
    ensures forall k :: 0 <= k < |keys| ==> rows[k] == Row(timeseriesId, keys[k], values[keys[k]])
  {
    seq(|keys|, k requires 0 <= k < |keys| => Row(timeseriesId, keys[k], values[keys[k]]))
  }

  /**
   * The loop state of `_build_values_to_insert` after the first `i` samples:
   * all their timestamps aware, the keys their distinct timestamps, and the
   * dictionary the coalesced value of each key.
   */
  ghost predicate BuildState(series: seq<Sample>, i: nat, keys: seq<DateTime>, values: map<DateTime, Option<real>>,
                             sanitize: Option<real> -> Option<real>)
  {
    i <= |series| &&
    AllAware(TimestampsOf(series[..i])) &&
    keys == DistinctTimestamps(TimestampsOf(series[..i])) &&
    SameKeys(keys, values) &&
    CoalescedValues(series[..i], values, sanitize)
  }

  ghost predicate SameKeys(keys: seq<DateTime>, values: map<DateTime, Option<real>>)
  {
    forall t :: t in keys <==> t in values
  }

  /** Every stored value is the coalesced value of the samples `s` at its timestamp. */
  ghost predicate CoalescedValues(s: seq<Sample>, values: map<DateTime, Option<real>>, sanitize: Option<real> -> Option<real>)
  {
    forall t :: t in values ==> values[t] == CoalescedValue(s, t, sanitize)
  }

  /** Before the first sample there are no keys and no values. */
  lemma BuildInit(series: seq<Sample>, sanitize: Option<real> -> Option<real>)
    ensures BuildState(series, 0, [], map[], sanitize)
  {
    assert TimestampsOf(series[..0]) == [];
  }

  /** One more sample: its timestamp is appended unless seen. */
  lemma BuildStep(series: seq<Sample>, i: nat)
    requires i < |series|
    ensures TimestampsOf(series[..i + 1]) == TimestampsOf(series[..i]) + [series[i].0]
    ensures DistinctTimestamps(TimestampsOf(series[..i + 1])) == AppendIfAbsent(DistinctTimestamps(TimestampsOf(series[..i])), series[i].0)
    ensures AllAware(TimestampsOf(series[..i])) && series[i].0.aware ==> AllAware(TimestampsOf(series[..i + 1]))
  {
    assert series[..i + 1][..i] == series[..i];
    var ts := TimestampsOf(series[..i + 1]);
    assert ts == TimestampsOf(series[..i]) + [series[i].0];
    assert ts[..|ts| - 1] == TimestampsOf(series[..i]);
  }

  /** One more sample changes only the value of its own timestamp, by coalescing. */
  lemma CoalescedStep(series: seq<Sample>, i: nat, t: DateTime, sanitize: Option<real> -> Option<real>)
    requires i < |series|
    ensures CoalescedValue(series[..i + 1], t, sanitize) ==
      if series[i].0 == t then Coalesce(CoalescedValue(series[..i], t, sanitize), sanitize(series[i].1))
      else CoalescedValue(series[..i], t, sanitize)
  {
    assert series[..i + 1][..i] == series[..i];
  }

  /** A sample at a timestamp seen before coalesces into its value. */
  lemma BuildSeen(series: seq<Sample>, i: nat, keys: seq<DateTime>, values: map<DateTime, Option<real>>,
                  sanitize: Option<real> -> Option<real>)
    requires BuildState(series, i, keys, values, sanitize) && i < |series| && series[i].0 in values
    ensures BuildState(series, i + 1, keys, values[series[i].0 := Coalesce(values[series[i].0], sanitize(series[i].1))], sanitize)
  {
    BuildKeysSeen(series, i, keys, values, sanitize);
    BuildValuesSeen(series, i, keys, values, sanitize);
  }

  /** A sample at a new aware timestamp adds its key and its sanitized value. */
  lemma BuildNew(series: seq<Sample>, i: nat, keys: seq<DateTime>, values: map<DateTime, Option<real>>,
                 sanitize: Option<real> -> Option<real>)
    requires BuildState(series, i, keys, values, sanitize) && i < |series| && series[i].0 !in values && series[i].0.aware
    ensures BuildState(series, i + 1, keys + [series[i].0], values[series[i].0 := sanitize(series[i].1)], sanitize)
  {
    BuildKeysNew(series, i, keys, values, sanitize);
    BuildValuesNew(series, i, keys, values, sanitize);
  }

  /** A timestamp seen before leaves the keys as they are, and it is aware. */
  lemma BuildKeysSeen(series: seq<Sample>, i: nat, keys: seq<DateTime>, values: map<DateTime, Option<real>>,
                      sanitize: Option<real> -> Option<real>)
    requires BuildState(series, i, keys, values, sanitize) && i < |series| && series[i].0 in values
    ensures keys == DistinctTimestamps(TimestampsOf(series[..i + 1]))
    ensures AllAware(TimestampsOf(series[..i + 1]))
  {
    BuildStep(series, i);
    var j :| 0 <= j < i && TimestampsOf(series[..i])[j] == series[i].0;
    assert series[i].0.aware;
  }

  /** A new aware timestamp is appended to the keys. */
  lemma BuildKeysNew(series: seq<Sample>, i: nat, keys: seq<DateTime>, values: map<DateTime, Option<real>>,
                     sanitize: Option<real> -> Option<real>)
    requires BuildState(series, i, keys, values, sanitize) && i < |series| && series[i].0 !in values && series[i].0.aware
    ensures keys + [series[i].0] == DistinctTimestamps(TimestampsOf(series[..i + 1]))
    ensures AllAware(TimestampsOf(series[..i + 1]))
  {
    BuildStep(series, i);
  }

  lemma BuildValuesSeen(series: seq<Sample>, i: nat, keys: seq<DateTime>, values: map<DateTime, Option<real>>,
                        sanitize: Option<real> -> Option<real>)
    requires BuildState(series, i, keys, values, sanitize) && i < |series| && series[i].0 in values
    ensures SameKeys(keys, values[series[i].0 := Coalesce(values[series[i].0], sanitize(series[i].1))])
    ensures CoalescedValues(series[..i + 1], values[series[i].0 := Coalesce(values[series[i].0], sanitize(series[i].1))], sanitize)
  {
    BuildValues(series, i, values, Coalesce(values[series[i].0], sanitize(series[i].1)), sanitize);
  }

  lemma BuildValuesNew(series: seq<Sample>, i: nat, keys: seq<DateTime>, values: map<DateTime, Option<real>>,
                       sanitize: Option<real> -> Option<real>)
    requires BuildState(series, i, keys, values, sanitize) && i < |series| && series[i].0 !in values
    ensures SameKeys(keys + [series[i].0], values[series[i].0 := sanitize(series[i].1)])
    ensures CoalescedValues(series[..i + 1], values[series[i].0 := sanitize(series[i].1)], sanitize)
  {
    CoalescedAbsent(series[..i], series[i].0, sanitize);
    BuildValues(series, i, values, sanitize(series[i].1), sanitize);
  }

  /** Storing the coalesced value of the sample's timestamp keeps the dictionary the coalesced values. */
  lemma BuildValues(series: seq<Sample>, i: nat, values: map<DateTime, Option<real>>, v: Option<real>,
                    sanitize: Option<real> -> Option<real>)
    requires i < |series|
    requires CoalescedValues(series[..i], values, sanitize)
    requires v == Coalesce(CoalescedValue(series[..i], series[i].0, sanitize), sanitize(series[i].1))
    ensures CoalescedValues(series[..i + 1], values[series[i].0 := v], sanitize)
  {
    var next := values[series[i].0 := v];
    forall t | t in next
      ensures next[t] == CoalescedValue(series[..i + 1], t, sanitize)
    {
      CoalescedStep(series, i, t, sanitize);
    }
  }

  /** A naive timestamp anywhere makes the whole series naive. */
  lemma BuildNaive(series: seq<Sample>, i: nat)
    requires i < |series| && !series[i].0.aware
    ensures !AllAware(TimestampsOf(series))
  {
    assert TimestampsOf(series)[i] == series[i].0;
  }

  /** After the last sample the dictionary's rows are the inserted rows. */
  lemma BuildDone(timeseriesId: int, series: seq<Sample>, keys: seq<DateTime>, values: map<DateTime, Option<real>>,
                  sanitize: Option<real> -> Option<real>)
    requires BuildState(series, |series|, keys, values, sanitize)
    ensures AllAware(TimestampsOf(series))
    ensures DictionaryRows(timeseriesId, keys, values) == InsertedRows(timeseriesId, series, sanitize)
  {
    assert series[..|series|] == series;
  }

  /** A timestamp with no sample has no value. */
  lemma {:induction false} CoalescedAbsent(s: seq<Sample>, t: DateTime, sanitize: Option<real> -> Option<real>)
    requires t !in TimestampsOf(s)
    ensures CoalescedValue(s, t, sanitize) == None
  {
    if |s| > 0 {
      assert TimestampsOf(s)[|s| - 1] == s[|s| - 1].0;
      assert TimestampsOf(s[..|s| - 1]) == TimestampsOf(s)[..|s| - 1];
      CoalescedAbsent(s[..|s| - 1], t, sanitize);
    }
  }

  /**
   * The rows carry the given id and exactly the samples' distinct
   * timestamps, each once and in order of first occurrence.
   */
  lemma InsertedRowsProperties(timeseriesId: int, s: seq<Sample>, sanitize: Option<real> -> Option<real>)
    ensures var rows := InsertedRows(timeseriesId, s, sanitize);
      |rows| <= |s| &&
      RowTimestamps(rows) == DistinctTimestamps(TimestampsOf(s)) &&
      NoDuplicates(RowTimestamps(rows)) &&
      (forall t :: t in RowTimestamps(rows) <==> t in TimestampsOf(s)) &&
      (forall i :: 0 <= i < |rows| ==> rows[i].timeseriesId == timeseriesId)
  {
  }

  /**
   * Coalescing takes the first non-`None` sanitized value among the samples
   * at `t`, and is `None` when they all sanitize to `None`.
   */
  lemma {:induction false} CoalescedIsFirstNonNone(s: seq<Sample>, t: DateTime, sanitize: Option<real> -> Option<real>)
    ensures CoalescedValue(s, t, sanitize).None? <==>
      forall i :: 0 <= i < |s| && s[i].0 == t ==> sanitize(s[i].1).None?
    ensures CoalescedValue(s, t, sanitize).Some? ==>
      exists j :: 0 <= j < |s| && s[j].0 == t && sanitize(s[j].1) == CoalescedValue(s, t, sanitize) &&
        forall i :: 0 <= i < j && s[i].0 == t ==> sanitize(s[i].1).None?
  {
    if |s| > 0 {
      var init := s[..|s| - 1];
      CoalescedIsFirstNonNone(init, t, sanitize);
      assert forall i :: 0 <= i < |init| ==> init[i] == s[i];
      if CoalescedValue(init, t, sanitize).Some? {
        var j :| 0 <= j < |init| && init[j].0 == t && sanitize(init[j].1) == CoalescedValue(init, t, sanitize) &&
          forall i :: 0 <= i < j && init[i].0 == t ==> sanitize(init[i].1).None?;
        assert s[j].0 == t && sanitize(s[j].1) == CoalescedValue(s, t, sanitize);
      } else if CoalescedValue(s, t, sanitize).Some? {
        assert s[|s| - 1].0 == t && sanitize(s[|s| - 1].1) == CoalescedValue(s, t, sanitize);
      }
    }
  }

  lemma DistinctTwice(t: DateTime)
    ensures DistinctTimestamps([t, t]) == [t]
  {
    assert [t, t][..1] == [t];
    assert [t][..0] == [];
  }

  /** Two samples at one instant, the first `None`: the row takes the second's value. */
  lemma CoalesceNoneExample(t: DateTime)
    ensures InsertedRows(7, [(t, None), (t, Some(2.0))], x => x) == [Row(7, t, Some(2.0))]
  {
    var s: seq<Sample> := [(t, None), (t, Some(2.0))];
    assert s[..1] == [(t, None)] && s[..1][..0] == [];
    assert CoalescedValue(s[..1], t, x => x) == None;
    assert CoalescedValue(s, t, x => x) == Some(2.0);
    assert TimestampsOf(s) == [t, t];
    DistinctTwice(t);
  }

  /** Two samples at one instant, both values: the row keeps the first. */
  lemma CoalesceFirstExample(t: DateTime)
    ensures InsertedRows(7, [(t, Some(1.0)), (t, Some(2.0))], x => x) == [Row(7, t, Some(1.0))]
  {
    var s: seq<Sample> := [(t, Some(1.0)), (t, Some(2.0))];
    assert s[..1] == [(t, Some(1.0))] && s[..1][..0] == [];
    assert CoalescedValue(s[..1], t, x => x) == Some(1.0);
    assert CoalescedValue(s, t, x => x) == Some(1.0);
    assert TimestampsOf(s) == [t, t];
    DistinctTwice(t);
  }

  /** `batched`: consecutive chunks of `n`, the last one possibly shorter; nothing for no samples. */
  function Chunks<T>(s: seq<T>, n: nat): (r: seq<seq<T>>)
    requires n >= 1
    decreases |s|
  {
    if |s| == 0 then []
    else if |s| <= n then [s]
    else [s[..n]] + Chunks(s[n..], n)
  }

  function Flatten<T>(ss: seq<seq<T>>): seq<T>
  {
    if |ss| == 0 then [] else ss[0] + Flatten(ss[1..])
  }

  /** The chunks put back together are the input; each holds 1 to `n` elements, all but the last exactly `n`. */
  lemma {:induction false} ChunksProperties<T>(s: seq<T>, n: nat)
    requires n >= 1
    ensures Flatten(Chunks(s, n)) == s
    ensures forall i :: 0 <= i < |Chunks(s, n)| ==> 1 <= |Chunks(s, n)[i]| <= n
    ensures forall i :: 0 <= i < |Chunks(s, n)| - 1 ==> |Chunks(s, n)[i]| == n
  {
    if |s| > n {
      ChunksProperties(s[n..], n);
      var r := Chunks(s, n);
      assert r[1..] == Chunks(s[n..], n);
      assert s[..n] + s[n..] == s;
    } else if |s| > 0 {
      assert Chunks(s, n)[1..] == [];
    }
  }

  /** 2500 samples are inserted as batches of 1000, 1000 and 500. */
  lemma ChunksExample()
    ensures var c := Chunks(seq(2500, i => i), MaxBatchSize);
      |c| == 3 && |c[0]| == 1000 && |c[1]| == 1000 && |c[2]| == 500
  {
    var s := seq(2500, i => i);
    var c2 := Chunks(s[1000..][1000..], MaxBatchSize);
    assert c2 == [s[1000..][1000..]];
    var c1 := Chunks(s[1000..], MaxBatchSize);
    assert c1 == [s[1000..][..1000]] + c2;
    assert Chunks(s, MaxBatchSize) == [s[..1000]] + c1;
  }

  function Zip(timestamps: seq<DateTime>, values: seq<Option<real>>): (s: seq<Sample>)
    requires |timestamps| == |values|
    ensures |s| == |timestamps| && forall i :: 0 <= i < |s| ==> s[i] == (timestamps[i], values[i])
  {
    seq(|timestamps|, i requires 0 <= i < |timestamps| => (timestamps[i], values[i]))
  }

  lemma {:induction false} InFlatten<T>(ss: seq<seq<T>>, x: T)
    ensures x in Flatten(ss) <==> exists j :: 0 <= j < |ss| && x in ss[j]
  {
    if |ss| > 0 {
      InFlatten(ss[1..], x);
      assert forall j :: 0 <= j < |ss| - 1 ==> ss[1..][j] == ss[j + 1];
      if x in Flatten(ss[1..]) {
        var j :| 0 <= j < |ss[1..]| && x in ss[1..][j];
        assert x in ss[j + 1];
      }
    }
  }

  /** `_extract_partitions_from_values`: the monthly partitions of the rows' timestamps. */
  function ExtractPartitions(rows: seq<Row>): set<Partition>
  {
    set r | r in rows :: MonthlyFromTimestamp(r.timestampUtc, TimeseriesTable)
  }

  /** Instant `t` lies within the bounds of monthly partition `p`. */
  predicate HoldsInstant(p: Partition, t: DateTime)
  {
    p.Monthly? && 1 <= p.month <= 12 &&
    var next := MonthAfter(p.year, p.month + 1);
    1 <= next.1 <= 12 && DaysFromCivil(p.year, p.month, 1) <= DayOf(t) < DaysFromCivil(next.0, next.1, 1)
  }

  /** Every row lies within an extracted partition, and every extracted partition of the timeseries table holds a row. */
  lemma ExtractedPartitionsHoldRows(rows: seq<Row>)
    ensures forall r :: r in rows ==> exists p :: p in ExtractPartitions(rows) && HoldsInstant(p, r.timestampUtc)
    ensures forall p :: p in ExtractPartitions(rows) ==>
      p.table == TimeseriesTable && exists r :: r in rows && HoldsInstant(p, r.timestampUtc)
  {
    forall r | r in rows ensures HoldsInstant(MonthlyFromTimestamp(r.timestampUtc, TimeseriesTable), r.timestampUtc) {
      MonthlyPartitionHoldsTimestamp(r.timestampUtc, TimeseriesTable);
    }
  }

  /** A primary key of the timeseries table. */
  type Key = (int, DateTime)

  /** `INSERT ... ON CONFLICT DO UPDATE SET value = excluded.value`, one row after the other. */
  function Upsert(table: map<Key, Option<real>>, rows: seq<Row>): map<Key, Option<real>>
  {
    if |rows| == 0 then table
    else
      var r := rows[|rows| - 1];
      Upsert(table, rows[..|rows| - 1])[(r.timeseriesId, r.timestampUtc) := r.value]
  }

  function RowKeys(rows: seq<Row>): (ks: seq<Key>)
    ensures |ks| == |rows| && forall i :: 0 <= i < |rows| ==> ks[i] == (rows[i].timeseriesId, rows[i].timestampUtc)
  {
    seq(|rows|, i requires 0 <= i < |rows| => (rows[i].timeseriesId, rows[i].timestampUtc))
  }

  /** An upsert keeps every key, adds the rows' keys and nothing else, and with distinct keys stores each row's value. */
  lemma {:induction false} UpsertProperties(table: map<Key, Option<real>>, rows: seq<Row>)
    ensures forall k :: k in table ==> k in Upsert(table, rows)
    ensures forall i :: 0 <= i < |rows| ==> RowKeys(rows)[i] in Upsert(table, rows)
    ensures forall k :: k in Upsert(table, rows) ==> k in table || k in RowKeys(rows)
    ensures NoDuplicates(RowKeys(rows)) ==> forall i :: 0 <= i < |rows| ==> Upsert(table, rows)[RowKeys(rows)[i]] == rows[i].value
    ensures forall k :: k in table && k !in RowKeys(rows) ==> Upsert(table, rows)[k] == table[k]
  {
    if |rows| > 0 {
      var init := rows[..|rows| - 1];
      UpsertProperties(table, init);
      assert forall i :: 0 <= i < |init| ==> RowKeys(init)[i] == RowKeys(rows)[i];
      assert RowKeys(rows) == RowKeys(init) + [RowKeys(rows)[|rows| - 1]];
      if NoDuplicates(RowKeys(rows)) {
        assert NoDuplicates(RowKeys(init));
      }
    }
  }

  /** Every stored row lies in a partition that exists. */
  ghost predicate Partitioned(table: map<Key, Option<real>>, partitions: set<Partition>)
  {
    forall k :: k in table ==> MonthlyFromTimestamp(k.1, TimeseriesTable) in partitions
  }

  /** Once the rows' partitions exist, the upsert keeps every stored row in an existing partition. */
  lemma UpsertKeepsPartitioned(table: map<Key, Option<real>>, rows: seq<Row>, partitions: set<Partition>)
    requires Partitioned(table, partitions) && ExtractPartitions(rows) <= partitions
    ensures Partitioned(Upsert(table, rows), partitions)
  {
    UpsertProperties(table, rows);
    forall k | k in RowKeys(rows) ensures MonthlyFromTimestamp(k.1, TimeseriesTable) in partitions {
      var i :| 0 <= i < |rows| && RowKeys(rows)[i] == k;
      assert rows[i] in rows;
    }
  }

  /** Each batch's rows upserted in turn. */
  function UpsertBatches(table: map<Key, Option<real>>, timeseriesId: int, batches: seq<seq<Sample>>, sanitize: Option<real> -> Option<real>): map<Key, Option<real>>
  {
    if |batches| == 0 then table
    else Upsert(UpsertBatches(table, timeseriesId, batches[..|batches| - 1], sanitize),
                InsertedRows(timeseriesId, batches[|batches| - 1], sanitize))
  }

  /** The partitions of every batch's rows. */
  function BatchPartitions(timeseriesId: int, batches: seq<seq<Sample>>, sanitize: Option<real> -> Option<real>): set<Partition>
  {
    if |batches| == 0 then {}
    else
      var last := ExtractPartitions(InsertedRows(timeseriesId, batches[|batches| - 1], sanitize));
      BatchPartitions(timeseriesId, batches[..|batches| - 1], sanitize) + last
  }

  /** The number of leading batches whose timestamps are all aware: the batches committed before a naive one stops the insert. */
  function CleanBatches(batches: seq<seq<Sample>>): (k: nat)
    ensures k <= |batches|
  {
    if |batches| == 0 || !AllAware(TimestampsOf(batches[0])) then 0 else 1 + CleanBatches(batches[1..])
  }

  /** The first `i` batches have only aware timestamps. */
  predicate LeadingAware(batches: seq<seq<Sample>>, i: nat)
  {
    i <= |batches| && forall j :: 0 <= j < i ==> AllAware(TimestampsOf(batches[j]))
  }

  lemma LeadingAwareStep(batches: seq<seq<Sample>>, i: nat)
    requires LeadingAware(batches, i) && i < |batches| && AllAware(TimestampsOf(batches[i]))
    ensures LeadingAware(batches, i + 1)
  {
  }

  /** A batch with a naive timestamp after `i` clean ones: `i` batches are committed. */
  lemma StoppedAtBatch(batches: seq<seq<Sample>>, i: nat)
    requires LeadingAware(batches, i) && i < |batches| && !AllAware(TimestampsOf(batches[i]))
    ensures CleanBatches(batches) == i
  {
    CleanBatchesIs(batches, i);
  }

  /** Every batch clean: all of them are committed. */
  lemma AllBatchesClean(batches: seq<seq<Sample>>)
    requires LeadingAware(batches, |batches|)
    ensures CleanBatches(batches) == |batches| && batches[..CleanBatches(batches)] == batches
  {
    CleanBatchesIs(batches, |batches|);
  }

  /** One more batch: its rows are upserted after the earlier batches', and its partitions added. */
  lemma BatchesStep(table: map<Key, Option<real>>, timeseriesId: int, batches: seq<seq<Sample>>, i: nat, sanitize: Option<real> -> Option<real>)
    requires i < |batches|
    ensures UpsertBatches(table, timeseriesId, batches[..i + 1], sanitize)
         == Upsert(UpsertBatches(table, timeseriesId, batches[..i], sanitize), InsertedRows(timeseriesId, batches[i], sanitize))
    ensures BatchPartitions(timeseriesId, batches[..i + 1], sanitize)
         == BatchPartitions(timeseriesId, batches[..i], sanitize) + ExtractPartitions(InsertedRows(timeseriesId, batches[i], sanitize))
  {
    assert batches[..i + 1][..i] == batches[..i];
  }

  lemma {:induction false} CleanBatchesIs(batches: seq<seq<Sample>>, i: nat)
    requires i <= |batches|
    requires forall j :: 0 <= j < i ==> AllAware(TimestampsOf(batches[j]))
    requires i < |batches| ==> !AllAware(TimestampsOf(batches[i]))
    ensures CleanBatches(batches) == i
  {
    if i > 0 {
      assert forall j :: 0 <= j < i - 1 ==> batches[1..][j] == batches[j + 1];
      CleanBatchesIs(batches[1..], i - 1);
    }
  }

  /** The database: the timeseries table and its monthly partitions. */
  class TimeseriesStore {
    var table: map<Key, Option<real>>
    var partitions: set<Partition>

    /** Every stored row lies in a partition that exists. */
    ghost predicate Valid()
      reads this
    {
      Partitioned(table, partitions)
    }

    constructor ()
      ensures Valid() && table == map[] && partitions == {}
    {
      table := map[];
      partitions := {};
    }

    /**
     * One batch's insert. A row without its partition fails the table's
     * check; the transaction is rolled back, the batch's partitions are
     * created and the insert is repeated.
     */
    method InsertBatch(rows: seq<Row>)
      requires Valid()
      modifies this
      ensures Valid()
      ensures table == Upsert(old(table), rows)
      ensures partitions == old(partitions) + ExtractPartitions(rows)
    {
      if !(ExtractPartitions(rows) <= partitions) {
        partitions := partitions + ExtractPartitions(rows);
      }
      UpsertKeepsPartitioned(table, rows, partitions);
      table := Upsert(table, rows);
    }

    /**
     * `add_timeseries`: the lengths must agree; then each batch of 1000
     * samples is prepared and inserted and committed, until a batch holds a
     * naive timestamp, which raises with the earlier batches committed.
     */
    method AddTimeseries(timeseriesId: int, timestamps: seq<DateTime>, values: seq<Option<real>>, sanitize: Option<real> -> Option<real>)
      returns (r: Result<(), TimeseriesError>)
      requires Valid()
      modifies this
      ensures Valid()
      ensures |timestamps| != |values| ==> r == Err(LengthMismatch) && table == old(table) && partitions == old(partitions)
      ensures |timestamps| == |values| ==>
        var batches := Chunks(Zip(timestamps, values), MaxBatchSize);
        var k := CleanBatches(batches);
        (r.Ok? <==> k == |batches|) && (r.Err? ==> r.error == TimezoneMustBeSet) &&
        table == UpsertBatches(old(table), timeseriesId, batches[..k], sanitize) &&
        partitions == old(partitions) + BatchPartitions(timeseriesId, batches[..k], sanitize)
    {
      if |timestamps| != |values| {
        return Err(LengthMismatch);
      }
      var batches := Chunks(Zip(timestamps, values), MaxBatchSize);
      ghost var table0 := table;
      ghost var partitions0 := partitions;
      for i := 0 to |batches|
        invariant Valid()
        invariant LeadingAware(batches, i)
        invariant table == UpsertBatches(table0, timeseriesId, batches[..i], sanitize)
        invariant partitions == partitions0 + BatchPartitions(timeseriesId, batches[..i], sanitize)
      {
        var valuesToInsert := BuildValuesToInsert(timeseriesId, batches[i], sanitize);
        if valuesToInsert.Err? {
          StoppedAtBatch(batches, i);
          return Err(valuesToInsert.error);
        }
        BatchesStep(table0, timeseriesId, batches, i, sanitize);
        InsertBatch(valuesToInsert.value);
        LeadingAwareStep(batches, i);
      }
      AllBatchesClean(batches);
      r := Ok(());
    }
  }

  /** Upserting batches stores a key for every sample of every batch and keeps every earlier key. */
  lemma {:induction false} UpsertBatchesStoresSamples(table: map<Key, Option<real>>, timeseriesId: int, batches: seq<seq<Sample>>, sanitize: Option<real> -> Option<real>)
    ensures forall k :: k in table ==> k in UpsertBatches(table, timeseriesId, batches, sanitize)
    ensures forall j, x :: 0 <= j < |batches| && x in batches[j] ==> (timeseriesId, x.0) in UpsertBatches(table, timeseriesId, batches, sanitize)
  {
    if |batches| > 0 {
      var init := batches[..|batches| - 1];
      var last := batches[|batches| - 1];
      UpsertBatchesStoresSamples(table, timeseriesId, init, sanitize);
      var rows := InsertedRows(timeseriesId, last, sanitize);
      UpsertProperties(UpsertBatches(table, timeseriesId, init, sanitize), rows);
      InsertedRowsProperties(timeseriesId, last, sanitize);
      forall j, x | 0 <= j < |batches| && x in batches[j]
        ensures (timeseriesId, x.0) in UpsertBatches(table, timeseriesId, batches, sanitize)
      {
        if j < |batches| - 1 {
          assert init[j] == batches[j];
        } else {
          var i :| 0 <= i < |last| && last[i] == x;
          assert TimestampsOf(last)[i] == x.0;
          assert x.0 in RowTimestamps(rows);
          var m :| 0 <= m < |rows| && RowTimestamps(rows)[m] == x.0;
          assert RowKeys(rows)[m] == (timeseriesId, x.0);
        }
      }
    }
  }

  /**
   * When the lengths agree and every timestamp is aware, every batch is
   * committed and every sample's timestamp has a row under the id.
   */
  lemma AddTimeseriesStoresEverySample(table: map<Key, Option<real>>, timeseriesId: int, timestamps: seq<DateTime>, values: seq<Option<real>>, sanitize: Option<real> -> Option<real>)
    requires |timestamps| == |values| && AllAware(timestamps)
    ensures var batches := Chunks(Zip(timestamps, values), MaxBatchSize);
      CleanBatches(batches) == |batches| &&
      forall t :: t in timestamps ==> (timeseriesId, t) in UpsertBatches(table, timeseriesId, batches, sanitize)
  {
    var samples := Zip(timestamps, values);
    var batches := Chunks(samples, MaxBatchSize);
    ChunksProperties(samples, MaxBatchSize);
    forall j | 0 <= j < |batches| ensures AllAware(TimestampsOf(batches[j])) {
      forall i | 0 <= i < |batches[j]| ensures batches[j][i].0.aware {
        InFlatten(batches, batches[j][i]);
      }
    }
    CleanBatchesIs(batches, |batches|);
    UpsertBatchesStoresSamples(table, timeseriesId, batches, sanitize);
    forall t | t in timestamps ensures (timeseriesId, t) in UpsertBatches(table, timeseriesId, batches, sanitize) {
      var i :| 0 <= i < |timestamps| && timestamps[i] == t;
      InFlatten(batches, samples[i]);
    }
  }

  predicate WellFormed(s: TimeseriesData)
  {
    |s.timestamps| == |s.values|
  }

  /** The samples of a series as rows of its id. */
  function SeriesRows(s: TimeseriesData): (rows: seq<Row>)
    requires WellFormed(s)
    ensures |rows| == |s.timestamps|
    ensures forall i :: 0 <= i < |rows| ==> rows[i] == Row(s.timeseriesId, s.timestamps[i], s.values[i])
  {
    seq(|s.timestamps|, i requires 0 <= i < |s.timestamps| => Row(s.timeseriesId, s.timestamps[i], s.values[i]))
  }

  predicate AllWellFormed(ss: seq<TimeseriesData>)
  {
    forall k :: 0 <= k < |ss| ==> WellFormed(ss[k])
  }

  /** The samples of all series, one series after the other. */
  function Concat(ss: seq<TimeseriesData>): seq<Row>
    requires AllWellFormed(ss)
  {
    if |ss| == 0 then [] else Concat(ss[..|ss| - 1]) + SeriesRows(ss[|ss| - 1])
  }

  function SeriesIds(ss: seq<TimeseriesData>): (ids: seq<int>)
    ensures |ids| == |ss| && forall k :: 0 <= k < |ss| ==> ids[k] == ss[k].timeseriesId
  {
    seq(|ss|, k requires 0 <= k < |ss| => ss[k].timeseriesId)
  }

  function RowIds(rows: seq<Row>): (ids: seq<int>)
    ensures |ids| == |rows| && forall i :: 0 <= i < |rows| ==> ids[i] == rows[i].timeseriesId
  {
    seq(|rows|, i requires 0 <= i < |rows| => rows[i].timeseriesId)
  }

  /** Series that are non-empty, with neighbours of different ids: maximal runs of one id. */
  predicate Grouped(ss: seq<TimeseriesData>)
  {
    AllWellFormed(ss) &&
    (forall k :: 0 <= k < |ss| ==> |ss[k].timestamps| >= 1) &&
    (forall k :: 0 <= k < |ss| - 1 ==> ss[k].timeseriesId != ss[k + 1].timeseriesId)
  }

  /** The order the query returns rows in: by ascending id. */
  predicate IdsSorted(rows: seq<Row>)
  {
    forall i, j :: 0 <= i < j < |rows| ==> rows[i].timeseriesId <= rows[j].timeseriesId
  }

  predicate IdsIncreasing(ss: seq<TimeseriesData>)
  {
    forall k, l :: 0 <= k < l < |ss| ==> ss[k].timeseriesId < ss[l].timeseriesId
  }

  lemma ConcatAppend(ss: seq<TimeseriesData>, s: TimeseriesData)
    requires AllWellFormed(ss) && WellFormed(s)
    ensures AllWellFormed(ss + [s]) && Concat(ss + [s]) == Concat(ss) + SeriesRows(s)
  {
    assert (ss + [s])[..|ss|] == ss;
  }

  lemma ConcatExtendLast(ss: seq<TimeseriesData>, row: Row)
    requires AllWellFormed(ss) && |ss| > 0 && ss[|ss| - 1].timeseriesId == row.timeseriesId
    ensures var last := ss[|ss| - 1];
      var ss' := ss[|ss| - 1 := TimeseriesData(last.timeseriesId, last.timestamps + [row.timestampUtc], last.values + [row.value])];
      AllWellFormed(ss') && Concat(ss') == Concat(ss) + [row]
  {
    var last := ss[|ss| - 1];
    var s' := TimeseriesData(last.timeseriesId, last.timestamps + [row.timestampUtc], last.values + [row.value]);
    var ss' := ss[|ss| - 1 := s'];
    assert ss'[..|ss| - 1] == ss[..|ss| - 1];
    assert SeriesRows(s') == SeriesRows(last) + [row];
  }

  /** What the grouping loop has built after `i` rows. */
  ghost predicate MapState(rows: seq<Row>, i: nat, data: seq<TimeseriesData>)
  {
    i <= |rows| && Grouped(data) && Concat(data) == rows[..i] &&
    (|data| == 0) == (i == 0) &&
    (i > 0 ==> data[|data| - 1].timeseriesId == rows[i - 1].timeseriesId) &&
    (forall x :: x in SeriesIds(data) <==> x in RowIds(rows[..i])) &&
    (IdsSorted(rows) ==> IdsIncreasing(data))
  }

  /** A row whose id differs from the current series' starts a new series. */
  lemma MapStartSeries(rows: seq<Row>, i: nat, data: seq<TimeseriesData>)
    requires MapState(rows, i, data) && i < |rows|
    requires |data| == 0 || data[|data| - 1].timeseriesId != rows[i].timeseriesId
    ensures MapState(rows, i + 1, data + [TimeseriesData(rows[i].timeseriesId, [rows[i].timestampUtc], [rows[i].value])])
  {
    MapStartRows(rows, i, data);
    MapStartIds(rows, i, data);
  }

  /** The new series keeps the series grouped, and their rows are the rows so far. */
  lemma MapStartRows(rows: seq<Row>, i: nat, data: seq<TimeseriesData>)
    requires MapState(rows, i, data) && i < |rows|
    requires |data| == 0 || data[|data| - 1].timeseriesId != rows[i].timeseriesId
    ensures var data' := data + [TimeseriesData(rows[i].timeseriesId, [rows[i].timestampUtc], [rows[i].value])];
      Grouped(data') && Concat(data') == rows[..i + 1] && |data'| > 0 && data'[|data'| - 1].timeseriesId == rows[i].timeseriesId
  {
    var row := rows[i];
    var s := TimeseriesData(row.timeseriesId, [row.timestampUtc], [row.value]);
    assert rows[..i + 1] == rows[..i] + [row];
    ConcatAppend(data, s);
    assert SeriesRows(s) == [row];
  }

  /** The new series brings the row's id, in ascending order when the rows are sorted. */
  lemma MapStartIds(rows: seq<Row>, i: nat, data: seq<TimeseriesData>)
    requires MapState(rows, i, data) && i < |rows|
    requires |data| == 0 || data[|data| - 1].timeseriesId != rows[i].timeseriesId
    ensures var data' := data + [TimeseriesData(rows[i].timeseriesId, [rows[i].timestampUtc], [rows[i].value])];
      (forall x :: x in SeriesIds(data') <==> x in RowIds(rows[..i + 1])) &&
      (IdsSorted(rows) ==> IdsIncreasing(data'))
  {
    var row := rows[i];
    var s := TimeseriesData(row.timeseriesId, [row.timestampUtc], [row.value]);
    assert rows[..i + 1] == rows[..i] + [row];
    assert RowIds(rows[..i + 1]) == RowIds(rows[..i]) + [row.timeseriesId];
    assert SeriesIds(data + [s]) == SeriesIds(data) + [row.timeseriesId];
    if IdsSorted(rows) && i > 0 {
      assert rows[i - 1].timeseriesId <= row.timeseriesId;
    }
  }

  /** A row with the current series' id extends that series. */
  lemma MapExtendSeries(rows: seq<Row>, i: nat, data: seq<TimeseriesData>)
    requires MapState(rows, i, data) && i < |rows|
    requires |data| > 0 && data[|data| - 1].timeseriesId == rows[i].timeseriesId
    ensures var last := data[|data| - 1];
      MapState(rows, i + 1, data[|data| - 1 := TimeseriesData(last.timeseriesId, last.timestamps + [rows[i].timestampUtc], last.values + [rows[i].value])])
  {
    MapExtendRows(rows, i, data);
    MapExtendIds(rows, i, data);
  }

  lemma MapExtendRows(rows: seq<Row>, i: nat, data: seq<TimeseriesData>)
    requires MapState(rows, i, data) && i < |rows|
    requires |data| > 0 && data[|data| - 1].timeseriesId == rows[i].timeseriesId
    ensures var last := data[|data| - 1];
      var data' := data[|data| - 1 := TimeseriesData(last.timeseriesId, last.timestamps + [rows[i].timestampUtc], last.values + [rows[i].value])];
      Grouped(data') && Concat(data') == rows[..i + 1]
  {
    assert rows[..i + 1] == rows[..i] + [rows[i]];
    ConcatExtendLast(data, rows[i]);
  }

  lemma MapExtendIds(rows: seq<Row>, i: nat, data: seq<TimeseriesData>)
    requires MapState(rows, i, data) && i < |rows|
    requires |data| > 0 && data[|data| - 1].timeseriesId == rows[i].timeseriesId
    ensures var last := data[|data| - 1];
      var data' := data[|data| - 1 := TimeseriesData(last.timeseriesId, last.timestamps + [rows[i].timestampUtc], last.values + [rows[i].value])];
      (forall x :: x in SeriesIds(data') <==> x in RowIds(rows[..i + 1])) &&
      (IdsSorted(rows) ==> IdsIncreasing(data'))
  {
    var row := rows[i];
    var last := data[|data| - 1];
    var data' := data[|data| - 1 := TimeseriesData(last.timeseriesId, last.timestamps + [row.timestampUtc], last.values + [row.value])];
    assert rows[..i + 1] == rows[..i] + [row];
    assert RowIds(rows[..i + 1]) == RowIds(rows[..i]) + [row.timeseriesId];
    assert SeriesIds(data') == SeriesIds(data);
  }

  /**
   * `_map_timestamp_row_to_timestamp_data`: a new series starts whenever the
   * id differs from the previous row's; otherwise the row extends the
   * current series.
   */
  method MapRowsToTimeseriesData(rows: seq<Row>) returns (data: seq<TimeseriesData>)
    ensures Grouped(data) && Concat(data) == rows
    ensures |data| == 0 <==> |rows| == 0
    ensures forall x :: x in SeriesIds(data) <==> x in RowIds(rows)
    ensures IdsSorted(rows) ==> IdsIncreasing(data)
  {
    data := [];
    if |rows| == 0 {
      return;
    }
    var timeseriesId: Option<int> := None;
    for i := 0 to |rows|
      invariant MapState(rows, i, data)
      invariant timeseriesId == if |data| == 0 then None else Some(data[|data| - 1].timeseriesId)
    {
      var row := rows[i];
      if timeseriesId != Some(row.timeseriesId) {
        MapStartSeries(rows, i, data);
        data := data + [TimeseriesData(row.timeseriesId, [row.timestampUtc], [row.value])];
        timeseriesId := Some(row.timeseriesId);
      } else {
        MapExtendSeries(rows, i, data);
        var last := data[|data| - 1];
        data := data[|data| - 1 := TimeseriesData(last.timeseriesId, last.timestamps + [row.timestampUtc], last.values + [row.value])];
      }
    }
    assert rows[..|rows|] == rows;
  }

  /** Every requested id has a row. */
  predicate AllHaveData(timeseriesIds: seq<int>, rows: seq<Row>)
  {
    forall x :: x in timeseriesIds ==> x in RowIds(rows)
  }

  /** Every requested id is an existing timeseries. */
  predicate AllExist(timeseriesIds: seq<int>, existing: seq<int>)
  {
    forall x :: x in timeseriesIds ==> x in existing
  }

  /**
   * `get_timeseries` after its two queries: `rows` are the samples of the
   * requested ids in the range, ordered by id, and `existing` the requested
   * ids that are timeseries. When every requested id returned data, the
   * series are the result. Otherwise an id that is no timeseries is an
   * error, and each existing id without data gets an empty series at the
   * end, in no particular order.
   */
  method GetTimeseries(timeseriesIds: seq<int>, range: DatetimeRange, rows: seq<Row>, existing: seq<int>)
    returns (r: Result<seq<TimeseriesData>, TimeseriesError>)
    requires ValidRange(range)
    requires forall i :: 0 <= i < |rows| ==> rows[i].timeseriesId in timeseriesIds
    requires IdsSorted(rows)
    requires forall x :: x in existing ==> x in timeseriesIds
    ensures |timeseriesIds| == 0 ==> r == Err(NoTimeseriesIds)
    ensures |timeseriesIds| > 0 && range.endAtUtc.micros - range.startAtUtc.micros > MaxQueryRange ==> r == Err(RangeTooLong)
    ensures |timeseriesIds| > 0 && range.endAtUtc.micros - range.startAtUtc.micros <= MaxQueryRange ==>
      (r.Ok? <==> AllHaveData(timeseriesIds, rows) || AllExist(timeseriesIds, existing)) &&
      (r.Err? ==> r.error == NotFound(set x | x in timeseriesIds && x !in existing))
    ensures r.Ok? ==>
      AllWellFormed(r.value) && Concat(r.value) == rows &&
      NoDuplicates(SeriesIds(r.value)) &&
      (forall x :: x in SeriesIds(r.value) <==> x in timeseriesIds)
  {
    if |timeseriesIds| == 0 {
      return Err(NoTimeseriesIds);
    }
    if range.endAtUtc.micros - range.startAtUtc.micros > MaxQueryRange {
      return Err(RangeTooLong);
    }
    var ids := set x | x in timeseriesIds;
    var data := MapRowsToTimeseriesData(rows);
    var dataIds := set x | x in SeriesIds(data);
    var complete := AllDataIffCount(timeseriesIds, rows, data);
    if complete {
      return Ok(data);
    }
    var existingIds := set x | x in existing;
    var missing := ids - existingIds;
    if missing != {} {
      MissingIds(timeseriesIds, existing, missing);
      return Err(NotFound(missing));
    }
    NoMissingIds(timeseriesIds, existing);
    var result := AppendEmptySeries(data, existingIds, rows);
    return Ok(result);
  }

  /** The early return's test: as many series as distinct ids is every requested id having data. */
  method AllDataIffCount(timeseriesIds: seq<int>, rows: seq<Row>, data: seq<TimeseriesData>) returns (complete: bool)
    requires forall i :: 0 <= i < |rows| ==> rows[i].timeseriesId in timeseriesIds
    requires IdsIncreasing(data) && forall x :: x in SeriesIds(data) <==> x in RowIds(rows)
    ensures complete == (|data| == |(set x | x in timeseriesIds)|)
    ensures complete <==> AllHaveData(timeseriesIds, rows)
    ensures NoDuplicates(SeriesIds(data)) && (set x | x in SeriesIds(data)) <= (set x | x in timeseriesIds)
  {
    var ids := set x | x in timeseriesIds;
    IncreasingIdsAreDistinct(data);
    DistinctCardinality(SeriesIds(data));
    var dataIds := set x | x in SeriesIds(data);
    assert dataIds <= ids by {
      forall x | x in dataIds ensures x in ids {
        assert x in RowIds(rows);
      }
    }
    SubsetCardinality(dataIds, ids);
    complete := |data| == |ids|;
    if complete {
      assert dataIds == ids;
      forall x | x in timeseriesIds ensures x in RowIds(rows) {
        assert x in dataIds;
      }
    }
    if AllHaveData(timeseriesIds, rows) {
      assert ids <= dataIds by {
        forall x | x in ids ensures x in dataIds {
          assert x in RowIds(rows);
        }
      }
      assert dataIds == ids;
    }
  }

  lemma MissingIds(timeseriesIds: seq<int>, existing: seq<int>, missing: set<int>)
    requires missing == (set x | x in timeseriesIds) - (set x | x in existing) && missing != {}
    ensures missing == set x | x in timeseriesIds && x !in existing
    ensures !AllExist(timeseriesIds, existing)
  {
    var y := Element(missing);
    assert y in timeseriesIds && y !in existing;
  }

  lemma NoMissingIds(timeseriesIds: seq<int>, existing: seq<int>)
    requires (set x | x in timeseriesIds) - (set x | x in existing) == {}
    requires forall x :: x in existing ==> x in timeseriesIds
    ensures AllExist(timeseriesIds, existing)
    ensures (set x | x in existing) == (set x | x in timeseriesIds)
  {
    forall x | x in timeseriesIds ensures x in existing {
      assert x !in (set x | x in timeseriesIds) - (set x | x in existing);
    }
    var a := set x | x in existing;
    var b := set x | x in timeseriesIds;
    forall x | x in a ensures x in b {
      assert x in existing;
    }
    forall x | x in b ensures x in a {
      assert x in timeseriesIds;
    }
  }

  lemma Element(s: set<int>) returns (x: int)
    requires s != {}
    ensures x in s
  {
    if forall y :: y !in s {
      assert false;
    }
    x :| x in s;
  }

  /**
   * The ids of `get_timeseries` without data: the existing ones minus each
   * series' id. Each removal finds its id, so `remove` does not raise.
   */
  method IdsWithoutData(data: seq<TimeseriesData>, existingIds: set<int>) returns (noData: set<int>)
    requires NoDuplicates(SeriesIds(data)) && (set x | x in SeriesIds(data)) <= existingIds
    ensures noData == existingIds - set x | x in SeriesIds(data)
  {
    noData := existingIds;
    for k := 0 to |data|
      invariant noData == existingIds - set x | x in SeriesIds(data[..k])
    {
      assert data[..k + 1] == data[..k] + [data[k]];
      assert SeriesIds(data[..k + 1]) == SeriesIds(data[..k]) + [data[k].timeseriesId];
      // the id is present: `remove` does not raise
      assert data[k].timeseriesId in noData by {
        assert data[k].timeseriesId in SeriesIds(data);
        assert data[k].timeseriesId !in SeriesIds(data[..k]);
      }
      noData := noData - {data[k].timeseriesId};
    }
    assert data[..|data|] == data;
  }

  /**
   * The tail of `get_timeseries`: an empty series is appended for each id
   * without data.
   */
  method AppendEmptySeries(data: seq<TimeseriesData>, existingIds: set<int>, rows: seq<Row>) returns (result: seq<TimeseriesData>)
    requires AllWellFormed(data) && Concat(data) == rows
    requires NoDuplicates(SeriesIds(data)) && (set x | x in SeriesIds(data)) <= existingIds
    ensures AllWellFormed(result) && Concat(result) == rows
    ensures NoDuplicates(SeriesIds(result))
    ensures forall x :: x in SeriesIds(result) <==> x in existingIds
    ensures |result| >= |data| && result[..|data|] == data
  {
    var noData := IdsWithoutData(data, existingIds);
    result := data;
    ghost var appended: set<int> := {};
    while noData != {}
      invariant AppendState(data, existingIds, rows, result, appended, noData)
      decreases noData
    {
      ghost var someId := Element(noData);
      var x :| x in noData;
      AppendEmptyStep(data, existingIds, rows, result, appended, noData, x);
      result := result + [TimeseriesData(x, [], [])];
      appended := appended + {x};
      noData := noData - {x};
    }
  }

  /** The appending loop's state: the series so far, and the ids still without a series. */
  ghost predicate AppendState(data: seq<TimeseriesData>, existingIds: set<int>, rows: seq<Row>,
                              result: seq<TimeseriesData>, appended: set<int>, noData: set<int>)
  {
    AllWellFormed(result) && Concat(result) == rows &&
    NoDuplicates(SeriesIds(result)) &&
    (forall x :: x in SeriesIds(result) <==> x in SeriesIds(data) || x in appended) &&
    noData == existingIds - (set x | x in SeriesIds(data)) - appended &&
    appended <= existingIds &&
    |result| >= |data| && result[..|data|] == data
  }

  /** Appending an empty series for one id without data keeps the state. */
  lemma AppendEmptyStep(data: seq<TimeseriesData>, existingIds: set<int>, rows: seq<Row>,
                        result: seq<TimeseriesData>, appended: set<int>, noData: set<int>, x: int)
    requires AppendState(data, existingIds, rows, result, appended, noData) && x in noData
    ensures AppendState(data, existingIds, rows, result + [TimeseriesData(x, [], [])], appended + {x}, noData - {x})
  {
    var s := TimeseriesData(x, [], []);
    ConcatAppend(result, s);
    assert SeriesIds(result + [s]) == SeriesIds(result) + [x];
    assert (result + [s])[..|data|] == result[..|data|];
  }

  lemma IncreasingIdsAreDistinct(ss: seq<TimeseriesData>)
    requires IdsIncreasing(ss)
    ensures NoDuplicates(SeriesIds(ss))
  {
  }
}
