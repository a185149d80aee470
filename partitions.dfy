/**
 * Table partitions of the database: by quarter, month or year of a
 * timestamp, and by buckets of ids. A partition knows its table name and
 * the bounds of the values it holds, written as SQL literals: quoted ISO
 * 8601 dates (`'YYYY-MM-DD'`) for time partitions, plain integers for
 * buckets.
 */
module Partitions {
  import opened Wrappers
  import opened Text
  import opened Calendar

  /** A mapped table: its schema, when it has one, and its name. */
  datatype Table = Table(schema: Option<string>, tableName: string)

  /** The timeseries table lives in schema `carlos`. */
  const TimeseriesTable: Table := Table(Some("carlos"), "timeseries")

  datatype Partition =
    | Quarterly(table: Table, year: int, quarter: int)
    | Bucket(table: Table, actualId: int, bucketSize: int)
    | Yearly(table: Table, year: int)
    | Monthly(table: Table, year: int, month: int)

  datatype PartitionError =
    | BucketSizeTooSmall(size: int)
    /** `date(year, month, 1)` refuses a year outside 1..9999 or a month outside 1..12. */
    | InvalidDate(year: int, month: int)

  /** `base_table_name`: `schema.table`, or the bare table when the schema is absent or empty. */
  function BaseTableName(t: Table): (s: string)
    ensures t.schema.Some? && t.schema.value != "" ==> s == t.schema.value + "." + t.tableName
    ensures t.schema.None? || t.schema.value == "" ==> s == t.tableName
  {
    (if t.schema.Some? && t.schema.value != "" then t.schema.value + "." else "") + t.tableName
  }

  /** The bucket partition's constructor check. */
  function NewBucket(table: Table, actualId: int, bucketSize: int): (r: Result<Partition, PartitionError>)
    ensures r.Ok? <==> bucketSize >= 1
    ensures r.Ok? ==> r.value == Bucket(table, actualId, bucketSize)
    ensures r.Err? ==> r.error == BucketSizeTooSmall(bucketSize)
  {
    if bucketSize < 1 then Err(BucketSizeTooSmall(bucketSize)) else Ok(Bucket(table, actualId, bucketSize))
  }

  /** `date(year, month, 1).isoformat()` in quotes, or the error `date` raises. */
  function FirstOfMonthLiteral(year: int, month: int): (r: Result<string, PartitionError>)
    ensures r.Ok? <==> 1 <= year <= 9999 && 1 <= month <= 12
    ensures r.Err? ==> r.error == InvalidDate(year, month)
  {
    if 1 <= year <= 9999 && 1 <= month <= 12 then
      Ok("'" + ZeroPad(NatToDecimal(year), 4) + "-" + ZeroPad(NatToDecimal(month), 2) + "-01'")
    else Err(InvalidDate(year, month))
  }

  /** The literal is a quoted `YYYY-MM-01` whose digit fields read back as the year and the month. */
  lemma FirstOfMonthLiteralReadsBack(year: int, month: int)
    requires 1 <= year <= 9999 && 1 <= month <= 12
    ensures var s := FirstOfMonthLiteral(year, month).value;
      |s| == 12 && s[0] == '\'' && s[5] == '-' && s[8..] == "-01'" &&
      AllDigits(s[1..5]) && DecimalValue(s[1..5]) == year &&
      AllDigits(s[6..8]) && DecimalValue(s[6..8]) == month
  {
    assert Pow10(4) == 10000 && Pow10(2) == 100;
    DecimalWidth(year, 4, 10000);
    DecimalWidth(month, 2, 100);
    ZeroPadDecimalValue(year, 4);
    ZeroPadDecimalValue(month, 2);
    LiteralLayout(ZeroPad(NatToDecimal(year), 4), ZeroPad(NatToDecimal(month), 2));
  }

  /** Where the year and the month sit in a quoted `YYYY-MM-01`. */
  lemma LiteralLayout(y: string, m: string)
    requires |y| == 4 && |m| == 2
    ensures var s := "'" + y + "-" + m + "-01'";
      |s| == 12 && s[0] == '\'' && s[5] == '-' && s[8..] == "-01'" && s[1..5] == y && s[6..8] == m
  {
    var a := "'" + y + "-";
    var b := m + "-01'";
    assert "'" + y + "-" + m + "-01'" == a + b;
    assert (a + b)[1..5] == a[1..5] == y;
    assert (a + b)[6..8] == b[..2] == m;
  }

  /** The first month of quarter `q`. */
  function QuarterFirstMonth(q: int): int
  {
    (q - 1) * 3 + 1
  }

  /** The year and month after the given ones, rolling December over into January. */
  function MonthAfter(year: int, month: int): (int, int)
  {
    if month > 12 then (year + 1, 1) else (year, month)
  }

  /** `partition_no` of a bucket: the id divided by the size, rounded down. */
  function PartitionNo(p: Partition): int
    requires p.Bucket? && p.bucketSize >= 1
  {
    p.actualId / p.bucketSize
  }

  function LowerBoundInt(p: Partition): int
    requires p.Bucket? && p.bucketSize >= 1
  {
    PartitionNo(p) * p.bucketSize
  }

  function UpperBoundInt(p: Partition): int
    requires p.Bucket? && p.bucketSize >= 1
  {
    (PartitionNo(p) + 1) * p.bucketSize
  }

  /** `lower_bound`. */
  function LowerBound(p: Partition): Result<string, PartitionError>
    requires p.Bucket? ==> p.bucketSize >= 1
  {
    match p
    case Quarterly(_, year, quarter) => FirstOfMonthLiteral(year, QuarterFirstMonth(quarter))
    case Bucket(_, _, _) => Ok(IntToDecimal(LowerBoundInt(p)))
    case Yearly(_, year) => FirstOfMonthLiteral(year, 1)
    case Monthly(_, year, month) => FirstOfMonthLiteral(year, month)
  }

  /** `upper_bound`: the month after the partition's last, rolled over past December. */
  function UpperBound(p: Partition): Result<string, PartitionError>
    requires p.Bucket? ==> p.bucketSize >= 1
  {
    match p
    case Quarterly(_, year, quarter) =>
      var next := MonthAfter(year, quarter * 3 + 1);
      FirstOfMonthLiteral(next.0, next.1)
    case Bucket(_, _, _) => Ok(IntToDecimal(UpperBoundInt(p)))
    case Yearly(_, year) => FirstOfMonthLiteral(year + 1, 1)
    case Monthly(_, year, month) =>
      var next := MonthAfter(year, month + 1);
      FirstOfMonthLiteral(next.0, next.1)
  }

  /** ASCII upper-case letters to lower case, the only ones a bucket suffix could hold. */
  function LowerAscii(s: string): (r: string)
    ensures |r| == |s|
    ensures forall i :: 0 <= i < |s| ==> r[i] == if 'A' <= s[i] <= 'Z' then (s[i] as int + 32) as char else s[i]
  {
    if |s| == 0 then "" else
      LowerAscii(s[..|s| - 1]) + [if 'A' <= s[|s| - 1] <= 'Z' then (s[|s| - 1] as int + 32) as char else s[|s| - 1]]
  }

  /** `f"{lower // bp:04d}{unit}_{upper // bp:04d}{unit}"`. */
  function ScaledSuffix(p: Partition, breakPoint: int, unit: string): string
    requires p.Bucket? && p.bucketSize >= 1 && breakPoint >= 1
  {
    FormatZeroPadded(LowerBoundInt(p) / breakPoint, 4) + unit + "_" + FormatZeroPadded(UpperBoundInt(p) / breakPoint, 4) + unit
  }

  /** The bucket suffix: millions if the size is a multiple of a million, else thousands if a multiple of a thousand, else the raw bounds. */
  function BucketSuffix(p: Partition): string
    requires p.Bucket? && p.bucketSize >= 1
  {
    if p.bucketSize >= 1_000_000 && p.bucketSize % 1_000_000 == 0 then ScaledSuffix(p, 1_000_000, "m")
    else if p.bucketSize >= 1000 && p.bucketSize % 1000 == 0 then ScaledSuffix(p, 1000, "k")
    else IntToDecimal(LowerBoundInt(p)) + "_" + IntToDecimal(UpperBoundInt(p))
  }

  /** `partition_table_name`. */
  function PartitionTableName(p: Partition): string
    requires p.Bucket? ==> p.bucketSize >= 1
  {
    match p
    case Quarterly(table, year, quarter) => BaseTableName(table) + "_y" + IntToDecimal(year) + "q" + IntToDecimal(quarter)
    case Bucket(table, _, _) => BaseTableName(table) + "_" + LowerAscii(BucketSuffix(p))
    case Yearly(table, year) => BaseTableName(table) + "_y" + IntToDecimal(year)
    case Monthly(table, year, month) => BaseTableName(table) + "_y" + IntToDecimal(year) + "m" + IntToDecimal(month)
  }

  /** The bucket name as the source computes it: a loop over the break points that stops at the first that divides the size. */
  method BucketPartitionTableName(p: Partition) returns (name: string)
    requires p.Bucket? && p.bucketSize >= 1
    ensures name == PartitionTableName(p)
  {
    var breakPoints := [(1_000_000, "m"), (1000, "k")];
    var tableSuffix := IntToDecimal(LowerBoundInt(p)) + "_" + IntToDecimal(UpperBoundInt(p));
    var i := 0;
    while i < |breakPoints|
      invariant 0 <= i <= |breakPoints|
      invariant i >= 1 ==> !(p.bucketSize >= 1_000_000 && p.bucketSize % 1_000_000 == 0)
      invariant i >= 2 ==> !(p.bucketSize >= 1000 && p.bucketSize % 1000 == 0)
      invariant tableSuffix == IntToDecimal(LowerBoundInt(p)) + "_" + IntToDecimal(UpperBoundInt(p))
    {
      var (breakPoint, suffix) := breakPoints[i];
      if p.bucketSize >= breakPoint && p.bucketSize % breakPoint == 0 {
        tableSuffix := ScaledSuffix(p, breakPoint, suffix);
        break;
      }
      i := i + 1;
    }
    name := BaseTableName(p.table) + "_" + LowerAscii(tableSuffix);
  }

  /** `QuarterlyPartition.from_timestamp`. */
  function QuarterlyFromTimestamp(t: DateTime, table: Table): (p: Partition)
    ensures p.Quarterly? && p.table == table && p.year == DateOfTimestamp(t).year
  {
    var d := DateOfTimestamp(t);
    Quarterly(table, d.year, (d.month - 1) / 3 + 1)
  }

  /** `YearlyPartition.from_timestamp`. */
  function YearlyFromTimestamp(t: DateTime, table: Table): (p: Partition)
    ensures p.Yearly? && p.table == table && p.year == DateOfTimestamp(t).year
  {
    Yearly(table, DateOfTimestamp(t).year)
  }

  /** `MonthlyPartition.from_timestamp`. */
  function MonthlyFromTimestamp(t: DateTime, table: Table): (p: Partition)
    ensures p.Monthly? && p.table == table
    ensures p.year == DateOfTimestamp(t).year && p.month == DateOfTimestamp(t).month
  {
    var d := DateOfTimestamp(t);
    Monthly(table, d.year, d.month)
  }

  /** A timestamp's quarter is 1 to 4 and holds the timestamp's month. */
  lemma QuarterOfTimestamp(t: DateTime, table: Table)
    ensures var p := QuarterlyFromTimestamp(t, table);
      1 <= p.quarter <= 4 && QuarterFirstMonth(p.quarter) <= DateOfTimestamp(t).month < QuarterFirstMonth(p.quarter) + 3
  {
    DateOfTimestampInMonth(t);
  }

  /** The monthly partition chosen for a timestamp holds it: its bounds are the first days of the timestamp's month and of the next. */
  lemma MonthlyPartitionHoldsTimestamp(t: DateTime, table: Table)
    ensures var p := MonthlyFromTimestamp(t, table);
      var next := MonthAfter(p.year, p.month + 1);
      1 <= p.month <= 12 && 1 <= next.1 <= 12 &&
      DaysFromCivil(p.year, p.month, 1) <= DayOf(t) < DaysFromCivil(next.0, next.1, 1)
  {
    DateOfTimestampInMonth(t);
  }

  /** The yearly partition chosen for a timestamp holds it: its bounds are January 1 of the timestamp's year and of the next. */
  lemma YearlyPartitionHoldsTimestamp(t: DateTime, table: Table)
    ensures var p := YearlyFromTimestamp(t, table);
      DaysFromCivil(p.year, 1, 1) <= DayOf(t) < DaysFromCivil(p.year + 1, 1, 1)
  {
    var d := DateOfTimestamp(t);
    DateOfTimestampInMonth(t);
    YearContainsMonth(d.year, d.month);
  }

  /** Upper bounds after the fourth quarter and after December are January 1 of the next year. */
  lemma UpperBoundRollsOver(table: Table, year: int)
    requires 1 <= year < 9999
    ensures UpperBound(Quarterly(table, year, 4)) == FirstOfMonthLiteral(year + 1, 1)
    ensures UpperBound(Monthly(table, year, 12)) == FirstOfMonthLiteral(year + 1, 1)
    ensures UpperBound(Yearly(table, year)) == FirstOfMonthLiteral(year + 1, 1)
    ensures UpperBound(Quarterly(table, year, 4)).Ok?
  {
  }

  /** The upper bound of a month is the lower bound of the next month. */
  lemma MonthsAreContiguous(table: Table, year: int, month: int)
    requires 1 <= month <= 12
    ensures var next := MonthAfter(year, month + 1);
      UpperBound(Monthly(table, year, month)) == LowerBound(Monthly(table, next.0, next.1))
  {
  }

  /** The upper bound of a quarter is the lower bound of the next quarter. */
  lemma QuartersAreContiguous(table: Table, year: int, quarter: int)
    requires 1 <= quarter <= 4
    ensures var next := if quarter == 4 then Quarterly(table, year + 1, 1) else Quarterly(table, year, quarter + 1);
      UpperBound(Quarterly(table, year, quarter)) == LowerBound(next)
  {
  }

  /** The upper bound of a year is the lower bound of the next year. */
  lemma YearsAreContiguous(table: Table, year: int)
    ensures UpperBound(Yearly(table, year)) == LowerBound(Yearly(table, year + 1))
  {
  }

  /** A bucket holds its id, spans exactly one bucket size, and the next bucket starts where it ends. */
  lemma BucketBounds(table: Table, actualId: int, bucketSize: int)
    requires bucketSize >= 1
    ensures var p := Bucket(table, actualId, bucketSize);
      LowerBoundInt(p) <= actualId < UpperBoundInt(p) &&
      UpperBoundInt(p) - LowerBoundInt(p) == bucketSize &&
      LowerBoundInt(Bucket(table, UpperBoundInt(p), bucketSize)) == UpperBoundInt(p)
  {
    var p := Bucket(table, actualId, bucketSize);
    var n := actualId / bucketSize;
    assert n * bucketSize <= actualId < (n + 1) * bucketSize;
    assert (n + 1) * bucketSize == n * bucketSize + bucketSize;
    DivUnique(UpperBoundInt(p), bucketSize, n + 1, 0);
  }

  /** Euclidean division is unique: a quotient with a remainder in range is the quotient. */
  lemma DivUnique(a: int, d: int, q: int, r: int)
    requires d >= 1 && a == q * d + r && 0 <= r < d
    ensures a / d == q
  {
    var q' := a / d;
    var r' := a % d;
    assert a == q' * d + r';
    assert (q - q') * d == r' - r;
    if q > q' {
      MulAtLeast(q - q', d);
    } else if q < q' {
      MulAtLeast(q' - q, d);
    }
  }

  lemma MulAtLeast(x: int, d: int)
    requires x >= 1 && d >= 1
    ensures x * d >= d
  {
    assert x * d == (x - 1) * d + d;
  }

  /** Two timestamps in the same quarter of the same year give the same partition, so the same name and bounds. */
  lemma SameQuarterSamePartition(t1: DateTime, t2: DateTime, table: Table)
    requires DateOfTimestamp(t1).year == DateOfTimestamp(t2).year
    requires (DateOfTimestamp(t1).month - 1) / 3 == (DateOfTimestamp(t2).month - 1) / 3
    ensures QuarterlyFromTimestamp(t1, table) == QuarterlyFromTimestamp(t2, table)
  {
  }

  predicate SuffixChar(c: char)
  {
    IsDigit(c) || c == '-' || c == '_' || c == 'm' || c == 'k'
  }

  predicate AllSuffixChars(s: string)
  {
    forall i :: 0 <= i < |s| ==> SuffixChar(s[i])
  }

  lemma ConcatSuffixChars(a: string, b: string)
    requires AllSuffixChars(a) && AllSuffixChars(b)
    ensures AllSuffixChars(a + b)
  {
  }

  lemma DigitsAreSuffixChars(s: string)
    requires AllDigits(s)
    ensures AllSuffixChars(s)
  {
  }

  lemma DecimalSuffixChars(x: int)
    ensures AllSuffixChars(IntToDecimal(x))
  {
    DigitsAreSuffixChars(NatToDecimal(if x < 0 then -x else x));
    if x < 0 {
      ConcatSuffixChars("-", NatToDecimal(-x));
    }
  }

  lemma PaddedSuffixChars(x: int, w: nat)
    ensures AllSuffixChars(FormatZeroPadded(x, w))
  {
    var s := NatToDecimal(if x < 0 then -x else x);
    var width := if x < 0 then (if w == 0 then 0 else w - 1) else w;
    DigitsAreSuffixChars(s);
    if |s| < width {
      assert AllSuffixChars(Zeros(width - |s|));
      ConcatSuffixChars(Zeros(width - |s|), s);
    }
    if x < 0 {
      ConcatSuffixChars("-", ZeroPad(s, width));
    }
  }

  /** Every character of a bucket suffix is a digit, `-`, `_`, `m` or `k`. */
  lemma BucketSuffixChars(p: Partition)
    requires p.Bucket? && p.bucketSize >= 1
    ensures AllSuffixChars(BucketSuffix(p))
  {
    if p.bucketSize >= 1_000_000 && p.bucketSize % 1_000_000 == 0 {
      ScaledSuffixChars(p, 1_000_000, "m");
    } else if p.bucketSize >= 1000 && p.bucketSize % 1000 == 0 {
      ScaledSuffixChars(p, 1000, "k");
    } else {
      DecimalSuffixChars(LowerBoundInt(p));
      DecimalSuffixChars(UpperBoundInt(p));
      ConcatSuffixChars(IntToDecimal(LowerBoundInt(p)), "_");
      ConcatSuffixChars(IntToDecimal(LowerBoundInt(p)) + "_", IntToDecimal(UpperBoundInt(p)));
    }
  }

  lemma ScaledSuffixChars(p: Partition, breakPoint: int, unit: string)
    requires p.Bucket? && p.bucketSize >= 1 && breakPoint >= 1 && (unit == "m" || unit == "k")
    ensures AllSuffixChars(ScaledSuffix(p, breakPoint, unit))
  {
    var a := FormatZeroPadded(LowerBoundInt(p) / breakPoint, 4);
    var b := FormatZeroPadded(UpperBoundInt(p) / breakPoint, 4);
    PaddedSuffixChars(LowerBoundInt(p) / breakPoint, 4);
    PaddedSuffixChars(UpperBoundInt(p) / breakPoint, 4);
    ConcatSuffixChars(a, unit);
    ConcatSuffixChars(a + unit, "_");
    ConcatSuffixChars(a + unit + "_", b);
    ConcatSuffixChars(a + unit + "_" + b, unit);
  }

  /** A string without upper-case letters is its own lower case. */
  lemma LowerAsciiIdentity(s: string)
    requires forall i :: 0 <= i < |s| ==> !('A' <= s[i] <= 'Z')
    ensures LowerAscii(s) == s
  {
  }

  /** Lower-casing a bucket suffix leaves it as it is. */
  lemma BucketSuffixIsLowerCase(p: Partition)
    requires p.Bucket? && p.bucketSize >= 1
    ensures LowerAscii(BucketSuffix(p)) == BucketSuffix(p)
  {
    BucketSuffixChars(p);
    LowerAsciiIdentity(BucketSuffix(p));
  }

  lemma Decimal2021() ensures NatToDecimal(2021) == "2021"
  {
    assert NatToDecimal(20) == "20";
    assert NatToDecimal(202) == "202";
  }

  lemma Decimal2022() ensures NatToDecimal(2022) == "2022"
  {
    assert NatToDecimal(20) == "20";
    assert NatToDecimal(202) == "202";
  }

  lemma Decimal1000() ensures NatToDecimal(1000) == "1000"
  {
    assert NatToDecimal(10) == "10";
    assert NatToDecimal(100) == "100";
  }

  lemma Decimal1500() ensures NatToDecimal(1500) == "1500"
  {
    assert NatToDecimal(15) == "15";
    assert NatToDecimal(150) == "150";
  }

  /** November 3, 2021 14:54:23.022222 UTC, as microseconds since the epoch. */
  const Nov3rd2021: DateTime := DateTime(18934 * MicrosPerDay + ((14 * 60 + 54) * 60 + 23) * MicrosPerSecond + 22222, true)

  /** A timestamp of November 2021 lies in the fourth quarter. */
  lemma QuarterlyExample()
    ensures QuarterlyFromTimestamp(Nov3rd2021, TimeseriesTable) == Quarterly(TimeseriesTable, 2021, 4)
  {
    Nov3rd2021Date();
  }

  lemma Nov3rd2021Date()
    ensures DateOfTimestamp(Nov3rd2021) == Date(2021, 11, 3)
  {
    DivUnique(Nov3rd2021.micros, MicrosPerDay, 18934, ((14 * 60 + 54) * 60 + 23) * MicrosPerSecond + 22222);
    DateExample();
  }

  /** The fourth quarter of 2021 is named by its year and quarter. */
  lemma QuarterlyNameExample()
    ensures PartitionTableName(Quarterly(TimeseriesTable, 2021, 4)) == "carlos.timeseries_y2021q4"
  {
    Decimal2021();
  }

  lemma Decimal10And1() ensures ZeroPad(NatToDecimal(10), 2) == "10" && ZeroPad(NatToDecimal(1), 2) == "01"
  {
    assert NatToDecimal(10) == "10";
  }

  /** The fourth quarter of 2021 is bounded by October 1, 2021 and January 1, 2022. */
  lemma QuarterlyBoundsExample()
    ensures LowerBound(Quarterly(TimeseriesTable, 2021, 4)) == Ok("'2021-10-01'")
    ensures UpperBound(Quarterly(TimeseriesTable, 2021, 4)) == Ok("'2022-01-01'")
  {
    Decimal2021();
    Decimal2022();
    Decimal10And1();
    assert QuarterFirstMonth(4) == 10 && MonthAfter(2021, 13) == (2022, 1);
    assert "'" + "2021" + "-" + "10" + "-01'" == "'2021-10-01'";
    assert "'" + "2022" + "-" + "01" + "-01'" == "'2022-01-01'";
  }

  /** A size that is a multiple of a million is named in millions. */
  lemma MillionsSuffixExample()
    ensures BucketSuffix(Bucket(TimeseriesTable, 2_500_000, 1_000_000)) == "0002m_0003m"
  {
    var p := Bucket(TimeseriesTable, 2_500_000, 1_000_000);
    BoundsExample(p, 2);
    Padded4Example(2, "0002");
    Padded4Example(3, "0003");
    assert BucketSuffix(p) == FormatZeroPadded(2, 4) + "m" + "_" + FormatZeroPadded(3, 4) + "m";
  }

  /** A size that is a multiple of a thousand, not of a million, is named in thousands. */
  lemma ThousandsSuffixExample()
    ensures BucketSuffix(Bucket(TimeseriesTable, 1500, 1000)) == "0001k_0002k"
  {
    var p := Bucket(TimeseriesTable, 1500, 1000);
    BoundsExample(p, 1);
    Padded4Example(1, "0001");
    Padded4Example(2, "0002");
    assert BucketSuffix(p) == FormatZeroPadded(1, 4) + "k" + "_" + FormatZeroPadded(2, 4) + "k";
  }

  /** The bounds of bucket `n`, in units of the bucket size. */
  lemma BoundsExample(p: Partition, n: int)
    requires p.Bucket? && p.bucketSize >= 1 && n * p.bucketSize <= p.actualId < (n + 1) * p.bucketSize
    ensures PartitionNo(p) == n
    ensures LowerBoundInt(p) / p.bucketSize == n && UpperBoundInt(p) / p.bucketSize == n + 1
  {
    DivUnique(p.actualId, p.bucketSize, n, p.actualId - n * p.bucketSize);
    assert LowerBoundInt(p) == n * p.bucketSize;
    assert UpperBoundInt(p) == (n + 1) * p.bucketSize;
    DivUnique(n * p.bucketSize, p.bucketSize, n, 0);
    DivUnique((n + 1) * p.bucketSize, p.bucketSize, n + 1, 0);
  }

  /** A one-digit number padded to four places. */
  lemma Padded4Example(x: nat, s: string)
    requires x < 10 && s == "000" + [('0' as int + x) as char]
    ensures FormatZeroPadded(x, 4) == s
  {
    assert Zeros(3) == "000";
  }

  /** Any other size is named by the raw bounds. */
  lemma RawSuffixExample()
    ensures BucketSuffix(Bucket(TimeseriesTable, 1200, 500)) == "1000_1500"
  {
    var p := Bucket(TimeseriesTable, 1200, 500);
    assert PartitionNo(p) == 2;
    Decimal1000();
    Decimal1500();
  }
}
