/**
 * The calendar arithmetic of Python's `datetime`: the proleptic Gregorian
 * calendar, day numbers counted from 1970-01-01, and instants in
 * microseconds.
 *
 * A `DateTime` is an instant in microseconds since 1970-01-01T00:00 UTC and
 * a flag saying whether the value is aware. In Python an aware value may
 * carry any UTC offset, and its `year`, `month` and `day` are the local fields
 * at that offset; the model has no offset, so an aware value here is one at
 * UTC and its fields are the UTC ones. A naive value's microseconds are its
 * wall-clock reading taken as if it were UTC.
 *
 * The day-number conversions are the era-based ones of H. Hinnant's
 * "chrono-compatible low-level date algorithms".
 */
module Calendar {
  const MicrosPerSecond: int := 1_000_000
  const MicrosPerDay: int := 86_400 * MicrosPerSecond

  datatype DateTime = DateTime(micros: int, aware: bool)

  datatype Date = Date(year: int, month: int, day: int)

  /** The day number of an instant: days since 1970-01-01, rounded down. */
  function DayOf(t: DateTime): int
  {
    t.micros / MicrosPerDay
  }

  /** `t.year`, `t.month` and `t.day`. */
  function DateOfTimestamp(t: DateTime): Date
  {
    CivilFromDays(DayOf(t))
  }

  /** Days since 1970-01-01 of the proleptic Gregorian date y-m-d. */
  function DaysFromCivil(y: int, m: int, d: int): int
    requires 1 <= m <= 12
  {
    var y' := if m <= 2 then y - 1 else y;
    var era := y' / 400;
    var yoe := y' - era * 400;
    var mp := if m > 2 then m - 3 else m + 9;
    var doy := (153 * mp + 2) / 5 + d - 1;
    var doe := yoe * 365 + yoe / 4 - yoe / 100 + doy;
    era * 146097 + doe - 719468
  }

  /** The March-based year of era containing day `doe` of the era. */
  function YoeOfDoe(doe: int): int
  {
    (doe - doe / 1460 + doe / 36524 - doe / 146096) / 365
  }

  /** The calendar month of March-based month index `mp` (0 is March). */
  function MonthOfIndex(mp: int): int
  {
    if mp < 10 then mp + 3 else mp - 9
  }

  /** The calendar year of month `mp` of March-based year `yoe` of era `era`. */
  function YearOfIndex(era: int, yoe: int, mp: int): int
  {
    if MonthOfIndex(mp) <= 2 then yoe + era * 400 + 1 else yoe + era * 400
  }

  /** The date `doy` days after March 1 of year `yoe` of era `era`. */
  function DateOf(era: int, yoe: int, doy: int): Date
  {
    var mp := (5 * doy + 2) / 153;
    Date(YearOfIndex(era, yoe, mp), MonthOfIndex(mp), doy - (153 * mp + 2) / 5 + 1)
  }

  /** The proleptic Gregorian date of day `z0` since 1970-01-01. */
  function CivilFromDays(z0: int): (r: Date)
  {
    var z := z0 + 719468;
    var era := z / 146097;
    var doe := z - era * 146097;
    var yoe := YoeOfDoe(doe);
    DateOf(era, yoe, doe - YearStart(yoe))
  }

  /** The first day, within its era, of March-based year `yoe`. */
  function YearStart(yoe: int): int { 365 * yoe + yoe / 4 - yoe / 100 }

  /** Year `100c + 4q + k` of an era starts where its centuries, four-year cycles and years say. */
  lemma YearStartOfDigits(c: int, q: int, k: int)
    requires 0 <= c <= 3 && 0 <= q <= 24 && 0 <= k <= 3
    ensures YearStart(100 * c + 4 * q + k) == 36524 * c + 1461 * q + 365 * k
  {
    var yoe := 100 * c + 4 * q + k;
    assert yoe / 4 == 25 * c + q;
    assert yoe / 100 == c;
  }

  /** A day of year `100c + 4q + k` of an era is found in that year. */
  lemma YoeOfYearStart(c: int, q: int, k: int, doy: int)
    requires 0 <= c <= 3 && 0 <= q <= 24 && 0 <= k <= 3
    requires 0 <= doy < 365 || (doy == 365 && k == 3 && (q != 24 || c == 3))
    ensures YoeOfDoe(36524 * c + 1461 * q + 365 * k + doy) == 100 * c + 4 * q + k
  {
    var doe := 36524 * c + 1461 * q + 365 * k + doy;
    assert doe / 146096 == if doe == 146096 then 1 else 0;
    assert doe / 36524 == if doe == 146096 then 4 else c;
  }

  /** Day `doe` of an era, as centuries, four-year cycles, years and days (the last century and cycle keep their extra day). */
  lemma EraDigits(doe: int) returns (c: int, q: int, k: int, doy: int)
    requires 0 <= doe < 146097
    ensures 0 <= c <= 3 && 0 <= q <= 24 && 0 <= k <= 3
    ensures 0 <= doy < 365 || (doy == 365 && k == 3 && (q != 24 || c == 3))
    ensures doe == 36524 * c + 1461 * q + 365 * k + doy
  {
    c := if doe / 36524 > 3 then 3 else doe / 36524;
    var r := doe - 36524 * c;
    assert 0 <= r < 36525;
    assert c < 3 ==> r < 36524;
    q := r / 1461;
    var s := r - 1461 * q;
    assert 0 <= s < 1461;
    assert q == 24 && c < 3 ==> s < 1460;
    k := if s / 365 > 3 then 3 else s / 365;
    doy := s - 365 * k;
  }

  /** `YoeOfDoe` finds the year of the era that holds the day. */
  lemma YoeOfDoeBounds(doe: int)
    requires 0 <= doe < 146097
    ensures 0 <= YoeOfDoe(doe) <= 399
    ensures 0 <= doe - YearStart(YoeOfDoe(doe)) <= 365
    ensures doe < if YoeOfDoe(doe) < 399 then YearStart(YoeOfDoe(doe) + 1) else 146097
  {
    var c, q, k, doy := EraDigits(doe);
    YoeOfYearStart(c, q, k, doy);
    YearStartOfDigits(c, q, k);
    if k < 3 {
      YearStartOfDigits(c, q, k + 1);
    } else if q < 24 {
      YearStartOfDigits(c, q + 1, 0);
    } else if c < 3 {
      YearStartOfDigits(c + 1, 0, 0);
    }
  }

  lemma MonthOfDoy(doy: int)
    requires 0 <= doy <= 365
    ensures 0 <= (5 * doy + 2) / 153 <= 11
    ensures 1 <= doy - (153 * ((5 * doy + 2) / 153) + 2) / 5 + 1 <= 31
  {
  }

  lemma DateOfInverse(era: int, yoe: int, doy: int)
    requires 0 <= yoe <= 399 && 0 <= doy <= 365
    ensures 1 <= DateOf(era, yoe, doy).month <= 12
    ensures DaysFromCivil(DateOf(era, yoe, doy).year, DateOf(era, yoe, doy).month, DateOf(era, yoe, doy).day)
      == era * 146097 + YearStart(yoe) + doy - 719468
  {
    MonthOfDoy(doy);
    var y := yoe + era * 400;
    assert y / 400 == era;
  }

  /** Splits a day number into its era, its March-based year of the era, and its day of that year. */
  lemma {:induction false} Decompose(z0: int) returns (era: int, yoe: int, doy: int)
    ensures 0 <= yoe <= 399 && 0 <= doy <= 365
    ensures YearStart(yoe) + doy < if yoe < 399 then YearStart(yoe + 1) else 146097
    ensures CivilFromDays(z0) == DateOf(era, yoe, doy)
    ensures z0 == era * 146097 + YearStart(yoe) + doy - 719468
  {
    var doe;
    era, doe := EraOf(z0);
    YoeOfDoeBounds(doe);
    yoe := YoeOfDoe(doe);
    doy := doe - YearStart(yoe);
  }

  /** The era of a day number and the day within it. */
  lemma EraOf(z0: int) returns (era: int, doe: int)
    ensures 0 <= doe < 146097 && z0 + 719468 == era * 146097 + doe
    ensures CivilFromDays(z0) == DateOf(era, YoeOfDoe(doe), doe - YearStart(YoeOfDoe(doe)))
  {
    era := (z0 + 719468) / 146097;
    doe := z0 + 719468 - era * 146097;
  }

  /** The date of a day number maps back to that day number. */
  lemma CivilRoundTrip(z0: int)
    ensures 1 <= CivilFromDays(z0).month <= 12
    ensures DaysFromCivil(CivilFromDays(z0).year, CivilFromDays(z0).month, CivilFromDays(z0).day) == z0
  {
    var era, yoe, doy := Decompose(z0);
    DateOfInverse(era, yoe, doy);
  }

  /** The year and month after month `m` of year `y`. */
  function NextMonth(y: int, m: int): (int, int)
  {
    if m + 1 > 12 then (y + 1, 1) else (y, m + 1)
  }

  lemma FirstOfMonth(era: int, yoe: int, mp: int)
    requires 0 <= yoe <= 399 && 0 <= mp <= 11
    ensures 1 <= MonthOfIndex(mp) <= 12
    ensures DaysFromCivil(YearOfIndex(era, yoe, mp), MonthOfIndex(mp), 1) == era * 146097 + YearStart(yoe) + (153 * mp + 2) / 5 - 719468
  {
    var y := yoe + era * 400;
    assert y / 400 == era;
  }

  /** Day `z` lies in the month of date `dt`. */
  predicate InMonthOf(dt: Date, z: int)
  {
    1 <= dt.month <= 12 &&
    DaysFromCivil(dt.year, dt.month, 1) <= z < DaysFromCivil(NextMonth(dt.year, dt.month).0, NextMonth(dt.year, dt.month).1, 1)
  }

  lemma DateOfInMonth(era: int, yoe: int, doy: int)
    requires 0 <= yoe <= 399 && 0 <= doy <= 365
    requires YearStart(yoe) + doy < if yoe < 399 then YearStart(yoe + 1) else 146097
    ensures InMonthOf(DateOf(era, yoe, doy), era * 146097 + YearStart(yoe) + doy - 719468)
  {
    MonthOfDoy(doy);
    var mp := (5 * doy + 2) / 153;
    var dt := DateOf(era, yoe, doy);
    var z0 := era * 146097 + YearStart(yoe) + doy - 719468;
    assert dt.year == YearOfIndex(era, yoe, mp) && dt.month == MonthOfIndex(mp);
    FirstOfMonth(era, yoe, mp);
    var lo := DaysFromCivil(dt.year, dt.month, 1);
    assert lo <= z0;
    var next := NextMonth(dt.year, dt.month);
    if mp < 11 {
      FirstOfMonth(era, yoe, mp + 1);
      assert next == (YearOfIndex(era, yoe, mp + 1), MonthOfIndex(mp + 1));
    } else if yoe < 399 {
      FirstOfMonth(era, yoe + 1, 0);
      assert next == (YearOfIndex(era, yoe + 1, 0), MonthOfIndex(0));
    } else {
      FirstOfMonth(era + 1, 0, 0);
      assert next == (YearOfIndex(era + 1, 0, 0), MonthOfIndex(0));
    }
    assert z0 < DaysFromCivil(next.0, next.1, 1);
  }

  /** Every day lies in the month of its own date. */
  lemma MonthContains(z0: int)
    ensures InMonthOf(CivilFromDays(z0), z0)
  {
    var era, yoe, doy := Decompose(z0);
    DateOfInMonth(era, yoe, doy);
  }

  /** January 1 comes before March 1 of the same year, across a 400-year era boundary too. */
  lemma JanuaryBeforeMarch(y: int)
    ensures DaysFromCivil(y, 1, 1) < DaysFromCivil(y, 3, 1)
  {
    var era := (y - 1) / 400;
    var yoe := (y - 1) - era * 400;
    assert DaysFromCivil(y, 1, 1) == era * 146097 + YearStart(yoe) + 306 - 719468;
    if yoe < 399 {
      assert y / 400 == era && y - era * 400 == yoe + 1;
      assert DaysFromCivil(y, 3, 1) == era * 146097 + YearStart(yoe + 1) - 719468;
    } else {
      assert y / 400 == era + 1 && y - (era + 1) * 400 == 0;
      assert YearStart(yoe) == 145731;
    }
  }

  /** Every month of a year starts no earlier than its January 1 and ends no later than the next year's. */
  lemma YearContainsMonth(y: int, m: int)
    requires 1 <= m <= 12
    ensures DaysFromCivil(y, 1, 1) <= DaysFromCivil(y, m, 1)
    ensures DaysFromCivil(NextMonth(y, m).0, NextMonth(y, m).1, 1) <= DaysFromCivil(y + 1, 1, 1)
  {
    if m >= 3 {
      JanuaryBeforeMarch(y);
    }
  }

  /** The date of an instant is a real calendar date, and the instant falls in that date's month. */
  lemma DateOfTimestampInMonth(t: DateTime)
    ensures 1 <= DateOfTimestamp(t).month <= 12 && DateOfTimestamp(t).day >= 1
    ensures InMonthOf(DateOfTimestamp(t), DayOf(t))
    ensures DaysFromCivil(DateOfTimestamp(t).year, DateOfTimestamp(t).month, DateOfTimestamp(t).day) == DayOf(t)
  {
    MonthContains(DayOf(t));
    CivilRoundTrip(DayOf(t));
  }

  /** 2021-11-03 is day 18934. */
  lemma DateExample()
    ensures CivilFromDays(18934) == Date(2021, 11, 3)
  {
    assert 738402 / 146097 == 5;
    assert YoeOfDoe(7917) == 21;
    assert YearStart(21) == 7670;
    assert DateOf(5, 21, 247) == Date(2021, 11, 3);
  }

  lemma DayNumberExample()
    ensures DaysFromCivil(2021, 11, 3) == 18934
    ensures DaysFromCivil(1970, 1, 1) == 0
  {
  }
}
